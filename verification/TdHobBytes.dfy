/** The hand-off block list read off the sections and spelled out in bytes (Platform Initialization Specification, volume 3,
    section 5). */
module TdHobBytes {
  import opened Bytes
  import opened Tdvf
  import opened Acceptor
  import opened TdHob
  import opened TdHobLayout

  // ----- what the sections contribute

  /** Section `i` accepts address `a`: a list (type 2) or temporary memory (type 3) that holds it. */
  predicate SectionTakes(s: Section, a: int) {
    s.secType in {2, 3} && s.memoryAddress <= a < s.memoryAddress + s.memoryDataSize
  }

  /** Accepted are exactly the addresses of the sections of types 2 and 3. */
  lemma {:induction false} TakenIs(sections: seq<Section>, a: int)
    ensures Taken(TakenBy(sections), a) <==> exists s <- sections :: SectionTakes(s, a)
  {
    var n := |sections|;
    if n > 0 {
      var front, last := sections[..n - 1], sections[n - 1];
      TakenIs(front, a);
      assert sections == front + [last];
      SectionsMore(front, last, a);
      if AcceptsMemory(last) {
        TakenMore(TakenBy(front), (last.memoryAddress as int, last.memoryAddress + last.memoryDataSize), a);
      } else {
        assert TakenBy(sections) == TakenBy(front) + [] == TakenBy(front);
      }
    }
  }

  lemma SectionsMore(front: seq<Section>, last: Section, a: int)
    ensures (exists s <- front + [last] :: SectionTakes(s, a)) <==> (exists s <- front :: SectionTakes(s, a)) || SectionTakes(last, a)
  {
    assert forall s :: s in front + [last] <==> s in front || s == last;
  }

  lemma TakenMore(taken: seq<(int, int)>, t: (int, int), a: int)
    ensures Taken(taken + [t], a) <==> Taken(taken, a) || t.0 <= a < t.1
  {
    assert forall u :: u in taken + [t] <==> u in taken || u == t;
  }

  /** The list lies at the last section of type 2, and at 0x809000 without one. */
  lemma {:induction false} BaseIs(sections: seq<Section>)
    ensures (forall s <- sections :: s.secType != 2) ==> HobBase(sections) == 0x809000
    ensures forall i: nat | LastList(sections, i) :: HobBase(sections) == sections[i].memoryAddress
  {
    var n := |sections|;
    if n > 0 && sections[n - 1].secType != 2 {
      BaseIs(sections[..n - 1]);
      forall i: nat | LastList(sections, i) ensures HobBase(sections) == sections[i].memoryAddress {
        assert LastList(sections[..n - 1], i);
      }
      assert (forall s <- sections :: s.secType != 2) ==> forall s <- sections[..n - 1] :: s in sections;
    }
  }

  predicate LastList(sections: seq<Section>, i: nat) {
    i < |sections| && sections[i].secType == 2 && forall j | i < j < |sections| :: sections[j].secType != 2
  }

  // ----- the bytes of the blocks

  /** Type 1, 56 bytes, version 9, and then, behind the boot mode and the four addresses, all zero, the end of the list. */
  const HANDOFF_HEAD: bytes := [1, 0, 56, 0, 0, 0, 0, 0, 9, 0, 0, 0, 0, 0, 0, 0]

  /** Type 3, 48 bytes. */
  const RESOURCE_HEAD: bytes := [3, 0, 48, 0, 0, 0, 0, 0]

  /** Three bytes of padding, and the attributes: present, initialized and tested. */
  const RESOURCE_ATTRIBUTES: bytes := [0, 0, 0, 7, 0, 0, 0]

  lemma Numbers56()
    ensures Le(56, 2) == [56, 0] && Le(9, 4) == [9, 0, 0, 0] && Le(48, 2) == [48, 0] && Le(7, 4) == [7, 0, 0, 0]
    ensures Zeros(3) == [0, 0, 0] && Zeros(4) == [0, 0, 0, 0]
  {
    hide Le;
    LeByte(56, 2);
    LeByte(9, 4);
    LeByte(48, 2);
    LeByte(7, 4);
    assert Zeros(3) == [0, 0, 0] && Zeros(1) == [0];
  }

  lemma HandoffIs(end: int)
    ensures Handoff(end) == HANDOFF_HEAD + Zeros(32) + Le(end, 8)
  {
    hide Le, Zeros;
    Numbers56();
    var head := [1, 0] + [56, 0] + [0, 0, 0, 0] + [9, 0, 0, 0] + [0, 0, 0, 0];
    assert head == HANDOFF_HEAD;
  }

  lemma ResourceIs(r: Resource)
    ensures ResourceHob(r) == RESOURCE_HEAD + Zeros(16) + [r.rtype] + RESOURCE_ATTRIBUTES + Le(r.start, 8) + Le(r.length, 8)
  {
    hide Le, Zeros;
    Numbers56();
    assert [3, 0] + [48, 0] + [0, 0, 0, 0] == RESOURCE_HEAD;
    var head := RESOURCE_HEAD + Zeros(16) + [r.rtype];
    assert [0, 0, 0] + [7, 0, 0, 0] == RESOURCE_ATTRIBUTES;
    Assoc(head, [0, 0, 0], [7, 0, 0, 0]);
  }

  /** The blocks from block `i` on. */
  function BlocksFrom(resources: seq<Resource>, i: nat): bytes
    requires i <= |resources|
    decreases |resources| - i
  {
    if i == |resources| then []
    else
      RESOURCE_HEAD + Zeros(16) + [resources[i].rtype] + RESOURCE_ATTRIBUTES + Le(resources[i].start, 8) + Le(resources[i].length, 8)
      + BlocksFrom(resources, i + 1)
  }

  lemma NoBlocks(resources: seq<Resource>)
    ensures ResourceHobs(resources[..0]) == [] && BlocksFrom(resources, |resources|) == []
  {
  }

  lemma BlocksStep(resources: seq<Resource>, i: nat)
    requires i < |resources|
    ensures ResourceHobs(resources[..i + 1]) == ResourceHobs(resources[..i]) + ResourceHob(resources[i])
    ensures BlocksFrom(resources, i) == ResourceHob(resources[i]) + BlocksFrom(resources, i + 1)
  {
    hide ResourceHob, Le, Zeros;
    ResourceIs(resources[i]);
    assert resources[..i + 1][..i] == resources[..i];
  }

  lemma {:induction false} BlocksSplit(resources: seq<Resource>, i: nat)
    requires i <= |resources|
    ensures ResourceHobs(resources) == ResourceHobs(resources[..i]) + BlocksFrom(resources, i)
    decreases |resources| - i
  {
    hide ResourceHobs, BlocksFrom, ResourceHob;
    if i == |resources| {
      NoBlocks(resources);
      assert resources[..i] == resources && ResourceHobs(resources) + [] == ResourceHobs(resources);
    } else {
      BlocksSplit(resources, i + 1);
      BlocksStep(resources, i);
      Assoc(ResourceHobs(resources[..i]), ResourceHob(resources[i]), BlocksFrom(resources, i + 1));
    }
  }

  /** What rtmr0.py measures, byte for byte: the hand-off block, whose end lies eight bytes behind the list, and one block for
      each resource. */
  lemma ListIs(sections: seq<Section>, memory: nat)
    requires PyHob(sections, memory).Some?
    ensures var resources := MemoryOf(sections, memory);
            PyHob(sections, memory) ==
              Some(HANDOFF_HEAD + Zeros(32) + Le(HobBase(sections) + 56 + 48 * |resources| + 8, 8) + BlocksFrom(resources, 0))
  {
    hide MemoryOf, HobBase, Encodable, Handoff, ResourceHobs, BlocksFrom, Le, Zeros;
    var resources := MemoryOf(sections, memory);
    HandoffIs(ListEnd(HobBase(sections), resources));
    BlocksSplit(resources, 0);
    NoBlocks(resources);
    assert [] + BlocksFrom(resources, 0) == BlocksFrom(resources, 0);
  }

  // ----- the resources, one by one

  /** The ranges in front of the last one are reported in order, each as one resource, of type 0 when it is accepted and of type
      7 when it is not; the last range is of type 7 in any case, continued at 4 GiB from 2 GiB on in a memory of at least
      0xB0000000. */
  lemma ResourcesAre(sections: seq<Section>, memory: nat)
    requires AcceptAll(memory, TakenBy(sections)) != []
    ensures var ranges := AcceptAll(memory, TakenBy(sections));
            var n := |ranges| - 1;
            var last := ranges[n];
            var resources := MemoryOf(sections, memory);
            && |resources| == n + (if memory >= 0xB000_0000 then 2 else 1)
            && (forall i | 0 <= i < n ::
                  resources[i] == Resource(if ranges[i].accepted then 0 else 7, ranges[i].start, ranges[i].end - ranges[i].start))
            && (memory < 0xB000_0000 ==> resources[n] == Resource(7, last.start, last.end - last.start))
            && (memory >= 0xB000_0000 ==>
                  && resources[n] == Resource(7, last.start, 0x8000_0000 - last.start)
                  && resources[n + 1] == Resource(7, 0x1_0000_0000, last.end - 0x8000_0000))
  {
    hide AcceptAll, TakenBy, Front;
    var ranges := AcceptAll(memory, TakenBy(sections));
    FrontIs(ranges[..|ranges| - 1]);
  }

  lemma {:induction false} FrontIs(ranges: seq<Range>)
    ensures |Front(ranges)| == |ranges|
    ensures forall i | 0 <= i < |ranges| ::
              Front(ranges)[i] == Resource(if ranges[i].accepted then 0 else 7, ranges[i].start, ranges[i].end - ranges[i].start)
  {
    if ranges != [] {
      FrontIs(ranges[..|ranges| - 1]);
    }
  }
}
