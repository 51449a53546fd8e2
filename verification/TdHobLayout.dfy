/** What the hand-off block list says: its walk, and the memory it describes. */
module TdHobLayout {
  import opened Bytes
  import opened Sorting
  import opened Tdvf
  import opened Acceptor
  import opened TdHob

  // ----- walking the list by its lengths

  datatype Hob = Phit(endOfList: nat) | Memory(resource: Resource)

  function ReadHob(b: bytes): Option<Hob> {
    var hobType :- Get(b, 0, 2);
    if hobType == 1 then
      var end :- Get(b, 48, 8);
      Some(Phit(end))
    else if hobType == 3 && |b| > 24 then
      var start :- Get(b, 32, 8);
      var length :- Get(b, 40, 8);
      Some(Memory(Resource(b[24], start, length)))
    else None
  }

  function WalkHobs(b: bytes): Option<seq<Hob>> {
    if b == [] then Some([])
    else
      var length :- Get(b, 2, 2);
      if length < 8 || length > |b| then None
      else
        var hob :- ReadHob(b[..length]);
        var rest :- WalkHobs(b[length..]);
        Some([hob] + rest)
  }

  function Listed(resources: seq<Resource>): seq<Hob> {
    if resources == [] then [] else [Memory(resources[0])] + Listed(resources[1..])
  }

  lemma {:induction false} HobsFromFront(resources: seq<Resource>)
    requires resources != []
    ensures ResourceHobs(resources) == ResourceHob(resources[0]) + ResourceHobs(resources[1..])
  {
    hide ResourceHob;
    var n := |resources|;
    var first := resources[..n - 1];
    if n == 1 {
      assert ResourceHobs(first) == [] && ResourceHobs(resources[1..]) == [];
    } else {
      HobsFromFront(first);
      assert resources[1..][..n - 2] == first[1..];
      Assoc(ResourceHob(resources[0]), ResourceHobs(first[1..]), ResourceHob(resources[n - 1]));
    }
  }

  lemma ResourceHobSlices(r: Resource)
    ensures var b := ResourceHob(r);
            && b[0..2] == [3, 0] && b[2..4] == Le(48, 2) && b[24] == r.rtype
            && b[32..40] == Le(r.start, 8) && b[40..48] == Le(r.length, 8)
  {
    hide Le, Zeros;
    var front: bytes := [3, 0] + Le(48, 2) + Zeros(4) + Zeros(16) + [r.rtype] + Zeros(3) + Le(7, 4);
    assert ResourceHob(r) == front + Le(r.start, 8) + Le(r.length, 8);
  }

  lemma ResourceHobFields(r: Resource)
    requires U64(r.start) && U64(r.length)
    ensures var b := ResourceHob(r);
            Get(b, 2, 2) == Some(48) && ReadHob(b) == Some(Memory(r))
  {
    PowValues();
    UnLeLe(48, 2);
    UnLeLe(r.start, 8);
    UnLeLe(r.length, 8);
    LeThree();
    hide Le, UnLe, Pow256, ResourceHob;
    ResourceHobSlices(r);
  }

  lemma LeThree()
    ensures UnLe([3, 0]) == 3 && UnLe([1, 0]) == 1
  {
    var three: bytes := [3, 0];
    var one: bytes := [1, 0];
    assert three[1..] == [0] && one[1..] == [0];
    var zero: bytes := [0];
    assert zero[1..] == [];
  }

  lemma HandoffSlices(end: nat)
    ensures var b := Handoff(end);
            b[0..2] == [1, 0] && b[2..4] == Le(56, 2) && b[48..56] == Le(end, 8)
  {
    hide Le, Zeros;
    var front: bytes := [1, 0] + Le(56, 2) + Zeros(4) + Le(9, 4) + Zeros(4) + Zeros(32);
    assert Handoff(end) == front + Le(end, 8);
  }

  lemma HandoffFields(end: nat)
    requires U64(end)
    ensures var b := Handoff(end);
            Get(b, 2, 2) == Some(56) && ReadHob(b) == Some(Phit(end))
  {
    PowValues();
    UnLeLe(56, 2);
    UnLeLe(end, 8);
    LeThree();
    hide Le, UnLe, Pow256, Handoff;
    HandoffSlices(end);
  }

  /** One block in front of a list that walks. */
  lemma WalkOne(b: bytes, rest: bytes)
    requires |b| >= 8 && Get(b, 2, 2) == Some(|b|) && ReadHob(b).Some? && WalkHobs(rest).Some?
    ensures WalkHobs(b + rest) == Some([ReadHob(b).value] + WalkHobs(rest).value)
  {
    hide ReadHob;
    var all := b + rest;
    assert all[..|b|] == b && all[|b|..] == rest && all[2..4] == b[2..4];
  }

  lemma {:induction false} WalkResources(resources: seq<Resource>)
    requires Encodable(resources)
    ensures WalkHobs(ResourceHobs(resources)) == Some(Listed(resources))
  {
    if resources != [] {
      assert resources[0] in resources && forall r <- resources[1..] :: r in resources;
      HobsFromFront(resources);
      ResourceHobFields(resources[0]);
      WalkResources(resources[1..]);
      hide ReadHob, WalkHobs, ResourceHob;
      WalkOne(ResourceHob(resources[0]), ResourceHobs(resources[1..]));
    }
  }

  /** Walking the list by its length fields finds the hand-off block and then every resource in order, and the
      end it announces lies 8 bytes (its terminator) behind its last byte. */
  lemma HobListWalks(base: nat, resources: seq<Resource>)
    requires Encodable(resources) && U64(ListEnd(base, resources))
    ensures var b := HobList(base, resources);
            WalkHobs(b) == Some([Phit(base + |b| + 8)] + Listed(resources))
  {
    hide ReadHob, WalkHobs, Handoff, ResourceHobs, Encodable;
    WalkResources(resources);
    HandoffFields(ListEnd(base, resources));
    WalkOne(Handoff(ListEnd(base, resources)), ResourceHobs(resources));
  }

  lemma {:induction false} ListedInjective(x: seq<Resource>, y: seq<Resource>)
    requires Listed(x) == Listed(y)
    ensures x == y
  {
    if x != [] && y != [] {
      assert Listed(x)[0] == Memory(x[0]) && Listed(y)[0] == Memory(y[0]);
      assert Listed(x)[1..] == Listed(x[1..]) && Listed(y)[1..] == Listed(y[1..]);
      ListedInjective(x[1..], y[1..]);
      assert x == [x[0]] + x[1..] && y == [y[0]] + y[1..];
    }
  }

  /** Nothing is lost: two lists with the same bytes describe the same resources at the same place. */
  lemma HobListInjective(base: nat, resources: seq<Resource>, base': nat, resources': seq<Resource>)
    requires Encodable(resources) && U64(ListEnd(base, resources))
    requires Encodable(resources') && U64(ListEnd(base', resources'))
    requires HobList(base, resources) == HobList(base', resources')
    ensures base == base' && resources == resources'
  {
    hide WalkHobs, HobList, Encodable, Listed;
    HobListWalks(base, resources);
    HobListWalks(base', resources');
    var b := HobList(base, resources);
    var tail, tail' := Listed(resources), Listed(resources');
    var walk, walk' := [Phit(base + |b| + 8)] + tail, [Phit(base' + |b| + 8)] + tail';
    assert walk == walk' && walk[0] == walk'[0] && walk[1..] == tail && walk'[1..] == tail';
    ListedInjective(resources, resources');
  }

  // ----- the memory it describes

  function Total(resources: seq<Resource>): int {
    var n := |resources|;
    if n == 0 then 0 else Total(resources[..n - 1]) + resources[n - 1].length
  }

  lemma {:induction false} TotalConcat(x: seq<Resource>, y: seq<Resource>)
    ensures Total(x + y) == Total(x) + Total(y)
  {
    if y == [] {
      assert x + y == x;
    } else {
      assert (x + y)[..|x| + |y| - 1] == x + y[..|y| - 1];
      TotalConcat(x, y[..|y| - 1]);
    }
  }

  /** Ranges that follow one another end where the last one does. */
  lemma {:induction false} ContiguousLast(ranges: seq<Range>, lo: int, hi: int)
    requires Contiguous(ranges, lo, hi) && ranges != []
    ensures ranges[|ranges| - 1].end == hi && ranges[|ranges| - 1].start < hi
    ensures Contiguous(ranges[..|ranges| - 1], lo, ranges[|ranges| - 1].start)
  {
    var n := |ranges|;
    if n == 1 {
      assert ranges[1..] == [];
    } else {
      ContiguousLast(ranges[1..], ranges[0].end, hi);
      assert ranges[..n - 1][1..] == ranges[1..][..n - 2];
      assert ranges[1..][n - 2] == ranges[n - 1];
    }
  }

  lemma {:induction false} FrontTotal(ranges: seq<Range>, lo: int, hi: int)
    requires Contiguous(ranges, lo, hi)
    ensures Total(Front(ranges)) == hi - lo
    decreases |ranges|
  {
    if ranges != [] {
      var n := |ranges|;
      ContiguousLast(ranges, lo, hi);
      FrontTotal(ranges[..n - 1], lo, ranges[n - 1].start);
      assert Front(ranges)[..n - 1] == Front(ranges[..n - 1]) by {
        FrontLength(ranges[..n - 1]);
      }
      FrontLength(ranges);
    }
  }

  lemma TailTotal(last: Range, memory: nat)
    ensures Total(Tail(last, memory)) == last.end - last.start
  {
    var tail := Tail(last, memory);
    if memory >= SPLIT_FROM {
      assert tail[..1] == [tail[0]] && tail[..1][..0] == [];
      assert Total([tail[0]]) == tail[0].length;
    } else {
      assert tail[..0] == [];
    }
  }

  /** The ranges in front of the last one partition the memory below it, and it reaches to the end of the memory. */
  ghost predicate Partitioned(ranges: seq<Range>, memory: nat) {
    && ranges != []
    && var last := ranges[|ranges| - 1];
    && 0 <= last.start <= last.end == memory
    && (memory > 0 ==> last.start < memory)
    && Contiguous(ranges[..|ranges| - 1], 0, last.start)
  }

  lemma MemoryPartitioned(sections: seq<Section>, memory: nat)
    requires DisjointInside(memory, TakenBy(sections))
    ensures Partitioned(AcceptAll(memory, TakenBy(sections)), memory)
  {
    var taken := TakenBy(sections);
    if memory == 0 {
      if t :| t in taken {
        assert false;
      }
      assert AcceptAll(memory, taken) == [Range(false, 0, 0)];
    } else {
      RangesPartition(memory, taken);
      RangesNonEmpty(memory, taken);
      ContiguousLast(AcceptAll(memory, taken), 0, memory);
      ContiguousBounds(AcceptAll(memory, taken), 0, memory);
    }
  }

  /** The resource lengths add up to the memory size. */
  lemma MemoryConserved(sections: seq<Section>, memory: nat)
    requires DisjointInside(memory, TakenBy(sections))
    ensures var ranges := AcceptAll(memory, TakenBy(sections));
            ranges != [] && Total(MemoryOf(sections, memory)) == memory
  {
    hide AcceptAll, Contiguous, TakenBy, DisjointInside, Tail, Front;
    var ranges := AcceptAll(memory, TakenBy(sections));
    MemoryPartitioned(sections, memory);
    var n := |ranges| - 1;
    FrontTotal(ranges[..n], 0, ranges[n].start);
    TailTotal(ranges[n], memory);
    TotalConcat(Front(ranges[..n]), Tail(ranges[n], memory));
  }

  // ----- guest memory in physical memory

  /** Where a guest address lies: a large memory skips from 2 GiB to 4 GiB. */
  function Phys(memory: nat, a: int): int {
    if memory >= SPLIT_FROM && a >= TWO_GIB then a + TWO_GIB else a
  }

  ghost predicate Reported(resources: seq<Resource>, rtype: byte, p: int) {
    exists r <- resources :: r.rtype == rtype && r.Has(p)
  }

  ghost predicate ReportedAtAll(resources: seq<Resource>, p: int) {
    Reported(resources, ACCEPTED_MEMORY, p) || Reported(resources, UNACCEPTED_MEMORY, p)
  }

  predicate Ordered(resources: seq<Resource>) {
    forall i, j | 0 <= i < j < |resources| :: resources[i].start + resources[i].length <= resources[j].start
  }

  lemma ReportedConcat(x: seq<Resource>, y: seq<Resource>, rtype: byte, p: int)
    ensures Reported(x + y, rtype, p) <==> Reported(x, rtype, p) || Reported(y, rtype, p)
  {
    assert forall r :: r in x + y <==> r in x || r in y;
  }

  lemma ReportedOne(r: Resource, rtype: byte, p: int)
    ensures Reported([r], rtype, p) <==> r.rtype == rtype && r.Has(p)
  {
    assert r in [r];
  }

  /** What ranges in front of the last one report, and that they do so in order from `lo` to `hi`. */
  lemma {:induction false} FrontReports(ranges: seq<Range>, lo: int, hi: int, a: int)
    requires Contiguous(ranges, lo, hi)
    ensures lo <= hi && (ReportedAtAll(Front(ranges), a) <==> lo <= a < hi)
    ensures Reported(Front(ranges), ACCEPTED_MEMORY, a) <==> Covers(ranges, true, a)
    ensures Ordered(Front(ranges)) && forall r <- Front(ranges) :: lo <= r.start && r.start + r.length <= hi && r.length > 0
    decreases |ranges|
  {
    if ranges != [] {
      var n := |ranges|;
      var r := ranges[n - 1];
      ContiguousLast(ranges, lo, hi);
      FrontReports(ranges[..n - 1], lo, r.start, a);
      ReportedConcat(Front(ranges[..n - 1]), [RangeResource(r)], ACCEPTED_MEMORY, a);
      ReportedConcat(Front(ranges[..n - 1]), [RangeResource(r)], UNACCEPTED_MEMORY, a);
      ReportedOne(RangeResource(r), ACCEPTED_MEMORY, a);
      ReportedOne(RangeResource(r), UNACCEPTED_MEMORY, a);
      assert ranges == ranges[..n - 1] + [r];
      CoversConcat(ranges[..n - 1], [r], true, a);
      assert Covers([r], true, a) <==> r.accepted && r.Has(a) by {
        assert r in [r];
      }
      OrderedSnoc(Front(ranges[..n - 1]), RangeResource(r), r.start);
    }
  }

  lemma OrderedSnoc(resources: seq<Resource>, r: Resource, hi: int)
    requires Ordered(resources) && (forall q <- resources :: q.start + q.length <= hi) && hi <= r.start
    ensures Ordered(resources + [r])
  {
  }

  lemma OrderedConcat(x: seq<Resource>, y: seq<Resource>, hi: int)
    requires Ordered(x) && Ordered(y)
    requires (forall q <- x :: q.start + q.length <= hi) && (forall q <- y :: hi <= q.start)
    ensures Ordered(x + y)
  {
    forall i, j | 0 <= i < j < |x + y| ensures (x + y)[i].start + (x + y)[i].length <= (x + y)[j].start {
      if i < |x| <= j {
        assert (x + y)[i] in x && (x + y)[j] in y;
      }
    }
  }

  lemma TailReports(last: Range, memory: nat, p: int)
    requires 0 <= last.start <= last.end == memory && (memory >= SPLIT_FROM ==> last.start <= TWO_GIB)
    ensures Reported(Tail(last, memory), UNACCEPTED_MEMORY, p) <==>
              if memory >= SPLIT_FROM then last.start <= p < TWO_GIB || FOUR_GIB <= p < memory + TWO_GIB
              else last.start <= p < memory
    ensures !Reported(Tail(last, memory), ACCEPTED_MEMORY, p)
    ensures Ordered(Tail(last, memory)) && forall r <- Tail(last, memory) :: last.start <= r.start && r.length >= 0
  {
    var tail := Tail(last, memory);
    ReportedOne(tail[0], UNACCEPTED_MEMORY, p);
    ReportedOne(tail[0], ACCEPTED_MEMORY, p);
    if memory >= SPLIT_FROM {
      assert tail == [tail[0]] + [tail[1]];
      ReportedConcat([tail[0]], [tail[1]], UNACCEPTED_MEMORY, p);
      ReportedConcat([tail[0]], [tail[1]], ACCEPTED_MEMORY, p);
      ReportedOne(tail[1], UNACCEPTED_MEMORY, p);
      ReportedOne(tail[1], ACCEPTED_MEMORY, p);
    } else {
      assert tail == [tail[0]];
    }
  }

  /** The accepted sections are disjoint and inside the memory; the last range of a large one starts no higher than 2 GiB. */
  ghost predicate WellPlaced(sections: seq<Section>, memory: nat) {
    && DisjointInside(memory, TakenBy(sections))
    && var ranges := AcceptAll(memory, TakenBy(sections));
    && ranges != []
    && (memory >= SPLIT_FROM ==> ranges[|ranges| - 1].start <= TWO_GIB)
  }

  /** What the whole list reports at a physical address: everything below the last range as the sections left it, and from
      there on only unaccepted memory. */
  lemma ReportedWhere(sections: seq<Section>, memory: nat, p: int)
    requires WellPlaced(sections, memory)
    ensures var ranges := AcceptAll(memory, TakenBy(sections));
            var resources := MemoryOf(sections, memory);
            && Ordered(resources)
            && (ReportedAtAll(resources, p) <==>
                  if memory >= SPLIT_FROM then 0 <= p < TWO_GIB || FOUR_GIB <= p < memory + TWO_GIB else 0 <= p < memory)
            && (Reported(resources, ACCEPTED_MEMORY, p) <==>
                  Taken(TakenBy(sections), p) && p < ranges[|ranges| - 1].start)
  {
    hide AcceptAll, Contiguous, TakenBy, DisjointInside, Tail, Front, Ordered, Taken, Covers, Reported;
    MemoryPartitioned(sections, memory);
    var ranges := AcceptAll(memory, TakenBy(sections));
    var n := |ranges| - 1;
    var last := ranges[n];
    var front, tail := Front(ranges[..n]), Tail(last, memory);
    FrontReports(ranges[..n], 0, last.start, p);
    TailReports(last, memory, p);
    ReportedConcat(front, tail, ACCEPTED_MEMORY, p);
    ReportedConcat(front, tail, UNACCEPTED_MEMORY, p);
    OrderedConcat(front, tail, last.start);
    UnacceptedExactly(memory, TakenBy(sections), p);
    BelowLast(ranges, 0, p);
  }

  /** An accepted range in front of the last one lies below it. */
  lemma BelowLast(ranges: seq<Range>, lo: int, a: int)
    requires ranges != [] && Contiguous(ranges[..|ranges| - 1], lo, ranges[|ranges| - 1].start)
    ensures Covers(ranges[..|ranges| - 1], true, a) <==> Covers(ranges, true, a) && a < ranges[|ranges| - 1].start
  {
    hide Contiguous;
    var last, front := ranges[|ranges| - 1], ranges[..|ranges| - 1];
    assert ranges == front + [last];
    CoversConcat(front, [last], true, a);
    ContiguousBounds(front, lo, last.start);
    assert Covers([last], true, a) ==> last.Has(a);
  }

  lemma LastUnaccepted(ranges: seq<Range>, a: int)
    requires ranges != [] && Contiguous(ranges[..|ranges| - 1], 0, ranges[|ranges| - 1].start)
    requires !ranges[|ranges| - 1].accepted && Covers(ranges, true, a)
    ensures a < ranges[|ranges| - 1].start
  {
    var last, front := ranges[|ranges| - 1], ranges[..|ranges| - 1];
    ContiguousBounds(front, 0, last.start);
    var r :| r in ranges && r.accepted && r.Has(a);
    assert ranges == front + [last];
    assert r in front;
  }

  /** The list reports the physical address of `a` exactly when `a` is guest memory, in disjoint resources in ascending order,
      and as accepted exactly when a section accepted it and it lies below the last range; so, unless the last range is
      accepted itself, exactly when a section accepted it. */
  lemma PhysicalImage(sections: seq<Section>, memory: nat, a: int)
    requires WellPlaced(sections, memory)
    ensures var ranges := AcceptAll(memory, TakenBy(sections));
            var last := ranges[|ranges| - 1];
            var resources := MemoryOf(sections, memory);
            && (ReportedAtAll(resources, Phys(memory, a)) <==> 0 <= a < memory)
            && (Reported(resources, ACCEPTED_MEMORY, Phys(memory, a)) <==> Taken(TakenBy(sections), a) && a < last.start)
            && (!last.accepted && Taken(TakenBy(sections), a) ==> a < last.start)
            && Ordered(resources)
  {
    hide AcceptAll, TakenBy, MemoryOf, Ordered, Taken, Reported, DisjointInside, Contiguous, Covers;
    ReportedWhere(sections, memory, Phys(memory, a));
    MemoryPartitioned(sections, memory);
    var ranges := AcceptAll(memory, TakenBy(sections));
    UnacceptedExactly(memory, TakenBy(sections), a);
    if !ranges[|ranges| - 1].accepted && Taken(TakenBy(sections), a) {
      LastUnaccepted(ranges, a);
    }
  }

  /** Every reported physical address is that of exactly one guest address. */
  lemma PhysicalInverse(sections: seq<Section>, memory: nat, p: int)
    requires WellPlaced(sections, memory)
    ensures ReportedAtAll(MemoryOf(sections, memory), p)
            <==> exists a :: 0 <= a < memory && Phys(memory, a) == p
    ensures forall a, b :: Phys(memory, a) == Phys(memory, b) ==> a == b
  {
    hide AcceptAll, TakenBy, MemoryOf, Ordered, Taken, Reported;
    ReportedWhere(sections, memory, p);
    var a := if memory >= SPLIT_FROM && p >= FOUR_GIB then p - TWO_GIB else p;
    if ReportedAtAll(MemoryOf(sections, memory), p) {
      assert 0 <= a < memory && Phys(memory, a) == p;
    }
  }

  // ----- when the Python tool builds the list

  lemma FrontEncodable(ranges: seq<Range>, lo: int, hi: int)
    requires Contiguous(ranges, lo, hi) && 0 <= lo && U64(hi)
    ensures Encodable(Front(ranges))
  {
    FrontReports(ranges, lo, hi, 0);
  }

  /** With disjoint sections inside a memory of 64 bits, the Python tool fails exactly when the last range of a large memory
      starts above 2 GiB, or the end of the list does not fit 64 bits. */
  lemma PyBuildsExactly(sections: seq<Section>, memory: nat)
    requires DisjointInside(memory, TakenBy(sections)) && U64(memory)
    ensures var ranges := AcceptAll(memory, TakenBy(sections));
            var base, resources := HobBase(sections), MemoryOf(sections, memory);
            && ranges != []
            && PyHob(sections, memory) ==
                 if (memory >= SPLIT_FROM && ranges[|ranges| - 1].start > TWO_GIB) || !U64(ListEnd(base, resources)) then None
                 else Some(HobList(base, resources))
  {
    hide AcceptAll, Contiguous, TakenBy, DisjointInside, Front, Encodable, HobBase, HobList, ListEnd, Tail;
    MemoryPartitioned(sections, memory);
    var ranges := AcceptAll(memory, TakenBy(sections));
    var n := |ranges| - 1;
    FrontEncodable(ranges[..n], 0, ranges[n].start);
    EncodableTail(Front(ranges[..n]), ranges[n], memory);
  }

  /** Such a memory: 0xB0000000 bytes, of which a section accepts the page right behind 2 GiB. */
  lemma SplitBehindTwoGiB()
    ensures var sections := [Section(0, 0, 0x8000_0000, 0x1000, TEMP_MEM, 0)];
            && DisjointInside(0xB000_0000, TakenBy(sections)) && AllAligned(sections)
            && PyHob(sections, 0xB000_0000) == None
  {
    hide PyHob;
    var sections := [Section(0, 0, 0x8000_0000, 0x1000, TEMP_MEM, 0)];
    OneTaken(sections[0]);
    var taken := TakenBy(sections);
    OneAccepted(0xB000_0000, 0x8000_0000, 0x8000_1000);
    PyBuildsExactly(sections, 0xB000_0000);
  }

  lemma OneTaken(s: Section)
    requires AcceptsMemory(s)
    ensures TakenBy([s]) == [(s.memoryAddress as int, s.memoryAddress + s.memoryDataSize)]
    ensures HobBase([s]) == if s.secType == TD_HOB then s.memoryAddress else DEFAULT_HOB_BASE
  {
    assert [s][..0] == [];
  }

  /** One interval strictly inside the memory. */
  lemma OneAccepted(memory: nat, start: int, end: int)
    requires 0 < start < end < memory
    ensures AcceptAll(memory, [(start, end)]) == [Range(false, 0, start), Range(true, start, end), Range(false, end, memory)]
  {
    hide Sort;
    var all := Range(false, 0, memory);
    assert [(start, end)][..0] == [] && AcceptAll(memory, []) == [all];
    assert [all][1..] == [] && Split(all, start, end) == [Range(false, 0, start), Range(false, end, memory)];
    var x := [Range(false, 0, start), Range(false, end, memory)] + [Range(true, start, end)];
    var y := [Range(false, 0, start), Range(true, start, end), Range(false, end, memory)];
    assert SplitAll([all], start, end) == [Range(false, 0, start), Range(false, end, memory)];
    SortIs(x, y, START);
  }
}
