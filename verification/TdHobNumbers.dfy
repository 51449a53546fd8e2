/** The hand-off block list with the numbers of measure.js: where rounding changes it and where it does not. */
module TdHobNumbers {
  import opened Bytes
  import opened Doubles
  import opened Sorting
  import opened Tdvf
  import opened Acceptor
  import opened TdHob
  import opened TdHobLayout

  /** A memory size the browser computes without rounding, together with every length it takes of it: below 2^53, or a whole
      number of kilobytes (as every size with a unit is) below 2^63. */
  predicate Representable(memory: nat) {
    memory < 0x20_0000_0000_0000 || (memory % 0x400 == 0 && memory < 0x8000_0000_0000_0000)
  }

  /** A whole number of pages, as far as a section can reach. */
  predicate PageAddress(a: int) {
    a % 0x1000 == 0 && 0 <= a < 0x2_0000_0000_0000_0000
  }

  predicate PageIntervals(taken: seq<(int, int)>) {
    forall t <- taken :: PageAddress(t.0) && PageAddress(t.1)
  }

  lemma {:induction false} AlignedIntervals(sections: seq<Section>)
    requires forall s <- sections :: Aligned(s) && Sized(s)
    ensures PageIntervals(TakenBy(sections))
  {
    var n := |sections|;
    if n > 0 {
      assert sections[n - 1] in sections && forall s <- sections[..n - 1] :: s in sections;
      AlignedIntervals(sections[..n - 1]);
    }
  }

  lemma EndsExact(taken: seq<(int, int)>)
    requires PageIntervals(taken)
    ensures RoundEnds(taken) == taken
  {
    hide Double;
    forall i | 0 <= i < |taken| ensures RoundEnds(taken)[i] == taken[i] {
      assert taken[i] in taken;
      PagesAreDoubles(taken[i].1);
    }
  }

  // ----- the ends of ranges

  /** An unaccepted range lies inside the memory, and in one of whole kilobytes so do its ends. */
  predicate FreeInside(r: Range, memory: nat) {
    0 <= r.start <= r.end <= memory && (memory % 0x400 == 0 ==> r.start % 0x400 == 0 && r.end % 0x400 == 0)
  }

  predicate AllFree(ranges: seq<Range>, memory: nat) {
    forall r <- ranges | !r.accepted :: FreeInside(r, memory)
  }

  lemma SplitFree(r: Range, start: int, end: int, memory: nat)
    requires PageAddress(start) && PageAddress(end) && start < end && (!r.accepted ==> FreeInside(r, memory))
    ensures AllFree(Split(r, start, end), memory)
  {
    hide PageAddress, FreeInside;
    if !r.accepted && r.end > start && r.start < end {
      var low, high := Range(false, r.start, start), Range(false, end, r.end);
      if r.start < start { CutFree(r, low, memory); }
      if r.end > end { CutFree(r, high, memory); }
    }
  }

  /** What a page boundary cuts off. */
  lemma CutFree(r: Range, cut: Range, memory: nat)
    requires FreeInside(r, memory) && r.start <= cut.start <= cut.end <= r.end
    requires PageAddress(cut.start) || cut.start == r.start
    requires PageAddress(cut.end) || cut.end == r.end
    ensures FreeInside(cut, memory)
  {
    if memory % 0x400 == 0 {
      if PageAddress(cut.start) { WholeKilobytes(cut.start); }
      if PageAddress(cut.end) { WholeKilobytes(cut.end); }
    }
  }

  lemma WholeKilobytes(a: int)
    requires a % 0x1000 == 0
    ensures a % 0x400 == 0
  {
    assert a == 0x400 * (4 * (a / 0x1000));
  }

  lemma {:induction false} SplitAllFree(ranges: seq<Range>, start: int, end: int, memory: nat)
    requires PageAddress(start) && PageAddress(end) && start < end && AllFree(ranges, memory)
    ensures AllFree(SplitAll(ranges, start, end), memory)
  {
    hide FreeInside, PageAddress, Split;
    if ranges != [] {
      assert ranges[0] in ranges && forall r <- ranges[1..] :: r in ranges;
      SplitFree(ranges[0], start, end, memory);
      SplitAllFree(ranges[1..], start, end, memory);
    }
  }

  lemma {:induction false} RangesFree(memory: nat, taken: seq<(int, int)>)
    requires PageIntervals(taken)
    ensures AllFree(AcceptAll(memory, taken), memory)
  {
    hide PageAddress, SplitAll, Sort;
    var n := |taken|;
    if n == 0 {
      WholeFree(memory);
    } else {
      var (start, end) := taken[n - 1];
      assert taken[n - 1] in taken && forall t <- taken[..n - 1] :: t in taken;
      RangesFree(memory, taken[..n - 1]);
      if start < end {
        SplitAllFree(AcceptAll(memory, taken[..n - 1]), start, end, memory);
        SortedFree(SplitAll(AcceptAll(memory, taken[..n - 1]), start, end), Range(true, start, end), memory);
      }
    }
  }

  lemma WholeFree(memory: nat)
    ensures AllFree([Range(false, 0, memory)], memory)
  {
  }

  lemma SortedFree(ranges: seq<Range>, t: Range, memory: nat)
    requires AllFree(ranges, memory) && t.accepted
    ensures AllFree(Sort(ranges + [t], START), memory)
  {
    hide FreeInside, Sort;
    forall r <- Sort(ranges + [t], START) | !r.accepted ensures FreeInside(r, memory) {
      SortMembers(ranges + [t], START, r);
    }
  }

  // ----- lengths

  /** A range as acceptance leaves it. */
  ghost predicate Plain(r: Range, memory: nat) {
    if r.accepted then PageAddress(r.start) && PageAddress(r.end) else FreeInside(r, memory)
  }

  lemma RangesPlain(memory: nat, taken: seq<(int, int)>, r: Range)
    requires PageIntervals(taken) && r in AcceptAll(memory, taken)
    ensures Plain(r, memory)
  {
    hide PageAddress, AcceptAll, FreeInside;
    RangesFree(memory, taken);
    if r.accepted {
      AcceptedAreTaken(memory, taken, r);
    }
  }

  lemma PagesApart(a: int, b: int)
    requires a % 0x1000 == 0 && b % 0x1000 == 0
    requires 0 <= a < 0x2_0000_0000_0000_0000 && 0 <= b < 0x2_0000_0000_0000_0000
    ensures Double(a - b) == a - b
  {
    hide Double;
    assert a - b == 0x1000 * (a / 0x1000 - b / 0x1000);
    PagesAreDoubles(a - b);
  }

  lemma KilobytesApart(a: int, b: int)
    requires a % 0x400 == 0 && b % 0x400 == 0 && 0 <= a < 0x8000_0000_0000_0000 && 0 <= b < 0x8000_0000_0000_0000
    ensures Double(a - b) == a - b
  {
    hide Double;
    assert a - b == 0x400 * (a / 0x400 - b / 0x400);
    KilobytesAreDoubles(a - b);
  }

  lemma LittleApart(a: int, b: int)
    requires 0 <= a < 0x20_0000_0000_0000 && 0 <= b < 0x20_0000_0000_0000
    ensures Double(a - b) == a - b
  {
    hide Double;
    SmallIsDouble(a - b);
  }

  lemma LengthExact(r: Range, memory: nat)
    requires Plain(r, memory) && Representable(memory)
    ensures Double(r.end - r.start) == r.end - r.start
    ensures Double(TWO_GIB - r.start) == TWO_GIB - r.start && Double(r.end - TWO_GIB) == r.end - TWO_GIB
  {
    hide Double;
    if r.accepted {
      PagesApart(r.end, r.start);
      PagesApart(0x8000_0000, r.start);
      PagesApart(r.end, 0x8000_0000);
    } else if memory < 0x20_0000_0000_0000 {
      LittleApart(r.end, r.start);
      LittleApart(0x8000_0000, r.start);
      LittleApart(r.end, 0x8000_0000);
    } else {
      KilobytesApart(r.end, r.start);
      KilobytesApart(0x8000_0000, r.start);
      KilobytesApart(r.end, 0x8000_0000);
    }
  }

  lemma {:induction false} FrontExact(ranges: seq<Range>, memory: nat)
    requires (forall r <- ranges :: Plain(r, memory)) && Representable(memory)
    ensures RoundLengths(Front(ranges)) == Front(ranges)
  {
    hide Plain, Representable, Double, RoundLengths;
    var n := |ranges|;
    if n == 0 {
      NothingThere();
    } else {
      assert ranges[n - 1] in ranges && forall r <- ranges[..n - 1] :: r in ranges;
      FrontExact(ranges[..n - 1], memory);
      LengthExact(ranges[n - 1], memory);
      LengthsConcat(Front(ranges[..n - 1]), [RangeResource(ranges[n - 1])]);
      LengthsOne(RangeResource(ranges[n - 1]));
    }
  }

  lemma NothingThere()
    ensures RoundLengths(Front([])) == Front([])
  {
  }

  lemma TailExact(last: Range, memory: nat)
    requires Plain(last, memory) && Representable(memory)
    ensures RoundLengths(Tail(last, memory)) == Tail(last, memory)
  {
    hide Plain, Representable, Double;
    LengthExact(last, memory);
  }

  lemma MemoryExact(sections: seq<Section>, memory: nat)
    requires (forall s <- sections :: Aligned(s) && Sized(s)) && Representable(memory)
    ensures JsMemoryOf(sections, memory) == MemoryOf(sections, memory)
  {
    hide AcceptAll, TakenBy, RoundLengths, RoundEnds, Front, Tail, PageIntervals, Plain, Representable, Aligned, Sized;
    var taken := TakenBy(sections);
    AlignedIntervals(sections);
    EndsExact(taken);
    RangesNonEmpty(memory, taken);
    var ranges := AcceptAll(memory, taken);
    var n := |ranges| - 1;
    forall r <- ranges ensures Plain(r, memory) {
      RangesPlain(memory, taken, r);
    }
    assert ranges[n] in ranges && forall r <- ranges[..n] :: r in ranges;
    FrontExact(ranges[..n], memory);
    TailExact(ranges[n], memory);
    LengthsConcat(Front(ranges[..n]), Tail(ranges[n], memory));
  }

  // ----- the whole list

  /** The end of the list comes out as it is. */
  predicate EndExact(sections: seq<Section>, memory: nat) {
    var base, resources := HobBase(sections), MemoryOf(sections, memory);
    JsEnd(base, 56 + 48 * |resources|) == ListEnd(base, resources)
  }

  lemma SizeIsDouble(memory: nat)
    requires Representable(memory)
    ensures Double(memory) == memory
  {
    hide Double;
    if memory < 0x20_0000_0000_0000 {
      SmallIsDouble(memory);
    } else {
      KilobytesAreDoubles(memory);
    }
  }

  /** For aligned sections and a memory size with a unit, the only number the browser may round is the end of the list. */
  lemma OnlyEndRounded(sections: seq<Section>, memory: nat)
    requires AllAligned(sections) && (forall s <- sections :: Sized(s)) && Representable(memory)
    ensures var base, resources := HobBase(sections), MemoryOf(sections, memory);
            JsHob(sections, memory) == Handoff(Double(Double(base + (56 + 48 * |resources|)) + 8)) + ResourceHobs(resources)
  {
    hide JsMemoryOf, MemoryOf, HobBase, Aligned, Sized, Representable, Double, Handoff, ResourceHobs, Numbers;
    AlignedNumbers(sections);
    SizeIsDouble(memory);
    MemoryExact(sections, memory);
  }

  lemma HandoffEnds(end: nat, end': nat, rest: bytes)
    requires Handoff(end) + rest == Handoff(end') + rest
    ensures Le(end, 8) == Le(end', 8)
  {
    hide Le, Zeros;
    HandoffSlices(end);
    HandoffSlices(end');
    assert (Handoff(end) + rest)[48..56] == Handoff(end)[48..56];
    assert (Handoff(end') + rest)[48..56] == Handoff(end')[48..56];
  }

  lemma EndIs(base: nat, length: nat)
    ensures JsEnd(base, length) == Double(Double(base + length) + 8)
  {
  }

  /** Where the Python tool builds a list, the browser builds the same one exactly when the end of the list is not rounded
      away. */
  lemma SameListExactly(sections: seq<Section>, memory: nat)
    requires AllAligned(sections) && (forall s <- sections :: Sized(s)) && Representable(memory)
    requires PyHob(sections, memory).Some?
    ensures PyHob(sections, memory).value == JsHob(sections, memory) <==> EndExact(sections, memory)
  {
    hide MemoryOf, HobBase, JsHob, Aligned, Sized, Representable, Double, Handoff, ResourceHobs, Encodable, JsEnd, Le;
    OnlyEndRounded(sections, memory);
    EndIs(HobBase(sections), 56 + 48 * |MemoryOf(sections, memory)|);
    var base, resources := HobBase(sections), MemoryOf(sections, memory);
    var end, exact := JsEnd(base, 56 + 48 * |resources|), ListEnd(base, resources);
    if PyHob(sections, memory).value == JsHob(sections, memory) {
      HandoffEnds(end, exact, ResourceHobs(resources));
      EndNear(base, 56 + 48 * |resources|);
      LowBytes(end, exact);
    }
  }

  lemma NearestNear(n: nat, unit: nat)
    requires unit > 0
    ensures Nearest(n, unit) <= n + unit
  {
    var q, rest := n / unit, n % unit;
    assert n == unit * q + rest && q * unit == unit * q && (q + 1) * unit == unit * q + unit;
  }

  lemma DoubleNear(n: nat)
    requires n < 0x2_0000_0000_0000_0000
    ensures Double(n) <= n + 0x1000
  {
    hide Ulp, Nearest, Pow2;
    Pow2Values();
    var q := UlpDivides(n, 12);
    UnitBelow(q, Ulp(n));
    NearestNear(n, Ulp(n));
  }

  lemma UnitBelow(q: nat, unit: nat)
    requires q * unit == 0x1000
    ensures unit <= 0x1000
  {
    if q > 0 {
      assert q * unit == unit + (q - 1) * unit;
    }
  }

  lemma EndNear(base: nat, length: nat)
    requires base + length + 8 < 0x1_0000_0000_0000_0000
    ensures JsEnd(base, length) <= base + length + 8 + 0x2000
  {
    hide Double;
    DoubleNear(base + length);
    DoubleNear(Double(base + length) + 8);
  }

  /** What the low bytes leave of a number. */
  lemma {:induction false} LowRest(n: nat, w: nat) returns (q: nat)
    ensures n == UnLe(Le(n, w)) + Pow256(w) * q
  {
    if w == 0 {
      q := n;
    } else {
      q := LowRest(n / 256, w - 1);
      var rest := Le(n / 256, w - 1);
      assert Le(n, w) == [n % 256] + rest && Le(n, w)[1..] == rest;
      TimesRest(n / 256, UnLe(rest), Pow256(w - 1), q);
      assert n == n % 256 + 256 * (n / 256);
    }
  }

  lemma TimesRest(m: nat, v: nat, p: nat, q: nat)
    requires m == v + p * q
    ensures 256 * m == 256 * v + (256 * p) * q
  {
  }

  lemma LowBytes(end: nat, exact: nat)
    requires Le(end, 8) == Le(exact, 8) && exact < 0x1_0000_0000_0000_0000 && end <= exact + 0x2000
    ensures end == exact
  {
    PowValues();
    hide Le, UnLe, Pow256;
    var q := LowRest(end, 8);
    var q' := LowRest(exact, 8);
  }

  /** A list that ends below 2^56 ends where it should: its base is a whole number of pages, and what is added are eights. */
  lemma LowEndExact(sections: seq<Section>, memory: nat)
    requires AllAligned(sections) && ListEnd(HobBase(sections), MemoryOf(sections, memory)) < 0x100_0000_0000_0000
    ensures EndExact(sections, memory)
  {
    hide MemoryOf, Aligned, HobBase, JsEnd;
    BaseAligned(sections);
    LowEnd(HobBase(sections), |MemoryOf(sections, memory)|);
  }

  lemma LowEnd(base: nat, n: nat)
    requires base % 8 == 0 && base + (56 + 48 * n) + 8 < 0x100_0000_0000_0000
    ensures JsEnd(base, 56 + 48 * n) == base + (56 + 48 * n) + 8
  {
    hide Double;
    var m := base / 8;
    assert base + (56 + 48 * n) == 8 * (m + 7 + 6 * n);
    EightIsDouble(m + 7 + 6 * n);
    EightIsDouble(m + 8 + 6 * n);
  }

  lemma {:induction false} BaseAligned(sections: seq<Section>)
    requires AllAligned(sections)
    ensures HobBase(sections) % 8 == 0
  {
    var n := |sections|;
    if n > 0 {
      assert sections[n - 1] in sections && forall s <- sections[..n - 1] :: s in sections;
      BaseAligned(sections[..n - 1]);
      WholeEights(sections[n - 1].memoryAddress);
    }
  }

  lemma EightTimes(m: nat)
    ensures (8 * m) % 8 == 0
  {
  }

  lemma WholeEights(a: nat)
    ensures a % 0x1000 == 0 ==> a % 8 == 0
  {
    var q := a / 0x1000;
    if a % 0x1000 == 0 {
      EightTimes(0x200 * q);
    }
  }

  // ----- a list whose end is rounded

  /** A page for the list at 2^60 and 1 GiB of memory: the Python tool announces the end 2^60 + 160, the browser
      2^60 + 256. */
  lemma EndRounded()
    ensures var sections := [Section(0, 0, 0x1000_0000_0000_0000, 0x1000, TD_HOB, 0)];
            && AllAligned(sections) && PyHob(sections, 0x4000_0000).Some?
            && !EndExact(sections, 0x4000_0000)
            && PyHob(sections, 0x4000_0000).value != JsHob(sections, 0x4000_0000)
  {
    hide PyHob, JsHob, Double;
    var s := Section(0, 0, 0x1000_0000_0000_0000, 0x1000, TD_HOB, 0);
    OneTaken(s);
    FarAccepted(0x4000_0000, 0x1000_0000_0000_0000, 0x1000_0000_0000_1000);
    FarResources();
    FarEnd();
    FarHob([s]);
    SameListExactly([s], 0x4000_0000);
  }

  /** One interval behind the memory. */
  lemma FarAccepted(memory: nat, start: int, end: int)
    requires 0 < memory <= start < end
    ensures AcceptAll(memory, [(start, end)]) == [Range(false, 0, memory), Range(true, start, end)]
  {
    hide Sort;
    var all := Range(false, 0, memory);
    assert [(start, end)][..0] == [] && AcceptAll(memory, []) == [all];
    assert [all][1..] == [] && SplitAll([all], start, end) == [all];
    SortIs([all] + [Range(true, start, end)], [all, Range(true, start, end)], START);
  }

  lemma FarResources()
    ensures var ranges := [Range(false, 0, 0x4000_0000), Range(true, 0x1000_0000_0000_0000, 0x1000_0000_0000_1000)];
            Resources(ranges, 0x4000_0000) ==
              [Resource(7, 0, 0x4000_0000), Resource(7, 0x1000_0000_0000_0000, 0x1000)]
  {
    var ranges := [Range(false, 0, 0x4000_0000), Range(true, 0x1000_0000_0000_0000, 0x1000_0000_0000_1000)];
    assert ranges[..1] == [ranges[0]] && [ranges[0]][..0] == [];
    assert Front([]) == [] && Front([ranges[0]]) == [] + [RangeResource(ranges[0])];
  }

  lemma FarEnd()
    ensures Double(0x1000_0000_0000_0098) == 0x1000_0000_0000_0100
    ensures Double(0x1000_0000_0000_0108) == 0x1000_0000_0000_0100
  {
    hide Nearest;
    FarUlp(0x98);
    FarUlp(0x108);
    FarNearest();
  }

  lemma FarNearest()
    ensures Nearest(0x1000_0000_0000_0098, 0x100) == 0x1000_0000_0000_0100
    ensures Nearest(0x1000_0000_0000_0108, 0x100) == 0x1000_0000_0000_0100
  {
  }

  lemma FarUlp(n: nat)
    requires n < 0x1000
    ensures Ulp(0x1000_0000_0000_0000 + n) == 0x100
  {
    var a := 0x1000_0000_0000_0000 + n;
    assert Ulp(a) == 2 * Ulp(a / 2) && Ulp(a / 2) == 2 * Ulp(a / 4) && Ulp(a / 4) == 2 * Ulp(a / 8);
    assert Ulp(a / 8) == 2 * Ulp(a / 16) && Ulp(a / 16) == 2 * Ulp(a / 32) && Ulp(a / 32) == 2 * Ulp(a / 64);
    assert Ulp(a / 64) == 2 * Ulp(a / 128) && Ulp(a / 128) == 2 * Ulp(a / 256) && Ulp(a / 256) == 1;
  }

  lemma FarHob(sections: seq<Section>)
    requires MemoryOf(sections, 0x4000_0000) == [Resource(7, 0, 0x4000_0000), Resource(7, 0x1000_0000_0000_0000, 0x1000)]
    requires HobBase(sections) == 0x1000_0000_0000_0000
    requires Double(0x1000_0000_0000_0098) == 0x1000_0000_0000_0100
    requires Double(0x1000_0000_0000_0108) == 0x1000_0000_0000_0100
    ensures PyHob(sections, 0x4000_0000).Some? && !EndExact(sections, 0x4000_0000)
  {
    hide MemoryOf, HobBase, Double, HobList;
  }
}
