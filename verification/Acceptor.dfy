/** Accepted and unaccepted guest memory (class `MemoryAcceptor` of rtmr0.py, the range splitting of measure.js). */
module Acceptor {
  import opened Bytes
  import opened Sorting

  datatype Range = Range(accepted: bool, start: int, end: int) {
    predicate Has(a: int) {
      start <= a < end
    }
  }

  /** What one range becomes when [start, end) is accepted. */
  function Split(r: Range, start: int, end: int): seq<Range> {
    if r.accepted || r.end <= start || r.start >= end then [r]
    else
      (if r.start < start then [Range(false, r.start, start)] else [])
      + (if r.end > end then [Range(false, end, r.end)] else [])
  }

  function SplitAll(ranges: seq<Range>, start: int, end: int): seq<Range> {
    if ranges == [] then [] else Split(ranges[0], start, end) + SplitAll(ranges[1..], start, end)
  }

  const START := (r: Range) => r.start

  function Accept(ranges: seq<Range>, start: int, end: int): seq<Range> {
    if start >= end then ranges else Sort(SplitAll(ranges, start, end) + [Range(true, start, end)], START)
  }

  /** The intervals accepted so far, in order. */
  function AcceptAll(memory: nat, taken: seq<(int, int)>): seq<Range> {
    var n := |taken|;
    if n == 0 then [Range(false, 0, memory)] else Accept(AcceptAll(memory, taken[..n - 1]), taken[n - 1].0, taken[n - 1].1)
  }

  class MemoryAcceptor {
    var ranges: seq<Range>

    constructor (start: int, size: int)
      ensures ranges == [Range(false, start, start + size)]
    {
      ranges := [Range(false, start, start + size)];
    }

    method AcceptRange(start: int, end: int)
      modifies this
      ensures ranges == Accept(old(ranges), start, end)
    {
      if start >= end { return; }
      var newRanges: seq<Range> := [];
      for i := 0 to |ranges|
        invariant ranges == old(ranges)
        invariant SplitAll(ranges, start, end) == newRanges + SplitAll(ranges[i..], start, end)
      {
        var r := ranges[i];
        ghost var before := newRanges;
        if r.accepted || r.end <= start || r.start >= end {
          newRanges := newRanges + [r];
        } else {
          if r.start < start { newRanges := newRanges + [Range(false, r.start, start)]; }
          if r.end > end { newRanges := newRanges + [Range(false, end, r.end)]; }
        }
        assert newRanges == before + Split(r, start, end);
        assert ranges[i..][1..] == ranges[i + 1..];
        Assoc(before, Split(r, start, end), SplitAll(ranges[i + 1..], start, end));
      }
      assert newRanges + SplitAll(ranges[|ranges|..], start, end) == newRanges;
      ranges := Sort(newRanges + [Range(true, start, end)], START);
    }
  }

  // ----- which addresses are unaccepted

  ghost predicate Covers(ranges: seq<Range>, accepted: bool, a: int) {
    exists r <- ranges :: r.accepted == accepted && r.Has(a)
  }

  lemma CoversConcat(x: seq<Range>, y: seq<Range>, accepted: bool, a: int)
    ensures Covers(x + y, accepted, a) <==> Covers(x, accepted, a) || Covers(y, accepted, a)
  {
    if Covers(x, accepted, a) {
      var r :| r in x && r.accepted == accepted && r.Has(a);
      assert r in x + y;
    }
    if Covers(y, accepted, a) {
      var r :| r in y && r.accepted == accepted && r.Has(a);
      assert r in x + y;
    }
  }

  lemma SplitCovers(r: Range, start: int, end: int, accepted: bool, a: int)
    requires start < end
    ensures Covers(Split(r, start, end), accepted, a) <==>
              r.accepted == accepted && r.Has(a) && (accepted || !(start <= a < end))
  {
    var pieces := Split(r, start, end);
    if r.accepted || r.end <= start || r.start >= end {
      assert r in pieces;
    } else {
      if r.start < start { assert Range(false, r.start, start) in pieces; }
      if r.end > end { assert Range(false, end, r.end) in pieces; }
    }
  }

  lemma {:induction false} SplitAllCovers(ranges: seq<Range>, start: int, end: int, accepted: bool, a: int)
    requires start < end
    ensures Covers(SplitAll(ranges, start, end), accepted, a) <==>
              Covers(ranges, accepted, a) && (accepted || !(start <= a < end))
  {
    if ranges != [] {
      SplitCovers(ranges[0], start, end, accepted, a);
      SplitAllCovers(ranges[1..], start, end, accepted, a);
      CoversConcat(Split(ranges[0], start, end), SplitAll(ranges[1..], start, end), accepted, a);
      CoversConcat([ranges[0]], ranges[1..], accepted, a);
      assert [ranges[0]] + ranges[1..] == ranges;
      assert Covers([ranges[0]], accepted, a) <==> ranges[0].accepted == accepted && ranges[0].Has(a) by {
        assert ranges[0] in [ranges[0]];
      }
    }
  }

  lemma AcceptCovers(ranges: seq<Range>, start: int, end: int, accepted: bool, a: int)
    ensures Covers(Accept(ranges, start, end), accepted, a) <==>
              if accepted then Covers(ranges, true, a) || start <= a < end
              else Covers(ranges, false, a) && !(start <= a < end)
  {
    if start < end {
      var split := SplitAll(ranges, start, end);
      var t := Range(true, start, end);
      SplitAllCovers(ranges, start, end, accepted, a);
      CoversConcat(split, [t], accepted, a);
      assert Covers([t], accepted, a) <==> accepted && t.Has(a) by {
        assert t in [t];
      }
      SortCovers(split + [t], accepted, a);
    }
  }

  lemma SortCovers(ranges: seq<Range>, accepted: bool, a: int)
    ensures Covers(Sort(ranges, START), accepted, a) <==> Covers(ranges, accepted, a)
  {
    if Covers(ranges, accepted, a) {
      var r :| r in ranges && r.accepted == accepted && r.Has(a);
      SortMembers(ranges, START, r);
    }
    if Covers(Sort(ranges, START), accepted, a) {
      var r :| r in Sort(ranges, START) && r.accepted == accepted && r.Has(a);
      SortMembers(ranges, START, r);
    }
  }

  predicate Taken(taken: seq<(int, int)>, a: int) {
    exists t <- taken :: t.0 <= a < t.1
  }

  /** After any accepts at all, an address is unaccepted exactly when it is guest memory and nothing accepted it, and
      accepted exactly when something did. */
  lemma {:induction false} UnacceptedExactly(memory: nat, taken: seq<(int, int)>, a: int)
    ensures Covers(AcceptAll(memory, taken), false, a) <==> 0 <= a < memory && !Taken(taken, a)
    ensures Covers(AcceptAll(memory, taken), true, a) <==> Taken(taken, a)
  {
    var n := |taken|;
    if n == 0 {
      assert Range(false, 0, memory) in AcceptAll(memory, taken);
    } else {
      UnacceptedExactly(memory, taken[..n - 1], a);
      AcceptCovers(AcceptAll(memory, taken[..n - 1]), taken[n - 1].0, taken[n - 1].1, true, a);
      AcceptCovers(AcceptAll(memory, taken[..n - 1]), taken[n - 1].0, taken[n - 1].1, false, a);
      assert taken == taken[..n - 1] + [taken[n - 1]];
      assert forall t :: t in taken <==> t in taken[..n - 1] || t == taken[n - 1];
    }
  }

  // ----- disjoint sections partition the memory

  /** Non-empty ranges that follow one another from `lo` to `hi`. */
  predicate Contiguous(ranges: seq<Range>, lo: int, hi: int) {
    if ranges == [] then lo == hi
    else ranges[0].start == lo < ranges[0].end && Contiguous(ranges[1..], ranges[0].end, hi)
  }

  lemma {:induction false} ContiguousBounds(ranges: seq<Range>, lo: int, hi: int)
    requires Contiguous(ranges, lo, hi)
    ensures lo <= hi && (ranges != [] ==> lo < hi)
    ensures forall r <- ranges :: lo <= r.start < r.end <= hi
    ensures Strict(ranges, START)
  {
    if ranges != [] {
      ContiguousBounds(ranges[1..], ranges[0].end, hi);
      assert forall r <- ranges :: r == ranges[0] || r in ranges[1..];
      forall i, j | 0 <= i < j < |ranges| ensures START(ranges[i]) < START(ranges[j]) {
        assert ranges[j] == ranges[1..][j - 1];
        if i > 0 {
          assert ranges[i] == ranges[1..][i - 1];
        }
      }
    }
  }

  lemma {:induction false} ContiguousConcat(x: seq<Range>, y: seq<Range>, lo: int, mid: int, hi: int)
    requires Contiguous(x, lo, mid) && Contiguous(y, mid, hi)
    ensures Contiguous(x + y, lo, hi)
  {
    if x == [] {
      assert x + y == y;
    } else {
      ContiguousConcat(x[1..], y, x[0].end, mid, hi);
      assert (x + y)[1..] == x[1..] + y;
    }
  }

  lemma {:induction false} SplitUntouched(ranges: seq<Range>, start: int, end: int)
    requires forall r <- ranges :: r.start >= end
    ensures SplitAll(ranges, start, end) == ranges
  {
    if ranges != [] {
      SplitUntouched(ranges[1..], start, end);
      assert [ranges[0]] + ranges[1..] == ranges;
    }
  }

  /** No accepted range meets [start, end). */
  predicate Free(ranges: seq<Range>, start: int, end: int) {
    forall r <- ranges :: r.accepted ==> r.end <= start || r.start >= end
  }

  function Max(a: int, b: int): int {
    if a > b then a else b
  }

  function Lower(r: Range, start: int): seq<Range> {
    if r.start < start then [Range(false, r.start, start)] else []
  }

  function Upper(r: Range, end: int): seq<Range> {
    if r.end > end then [Range(false, end, r.end)] else []
  }

  /** The pieces left of a range that meets [start, end) extend the partition on either side. */
  lemma CutFirst(r: Range, start: int, end: int, above: seq<Range>, hi: int)
    requires !r.accepted && r.start < r.end && r.end > start && r.start < end && start < end
    requires Contiguous(above, Max(r.end, end), hi)
    ensures Split(r, start, end) == Lower(r, start) + Upper(r, end)
    ensures Contiguous(Lower(r, start), r.start, Max(r.start, start))
    ensures Contiguous(Upper(r, end) + above, end, hi)
  {
    if r.start < start {
      assert Lower(r, start)[1..] == [];
    }
    if r.end > end {
      assert (Upper(r, end) + above)[1..] == above;
    } else {
      assert Upper(r, end) + above == above;
    }
  }

  /** Splitting a partition cuts [start, end) out of it: a partition of what lies below, then of what lies above. */
  lemma {:induction false} SplitCutsOut(ranges: seq<Range>, lo: int, hi: int, start: int, end: int)
      returns (below: seq<Range>, above: seq<Range>)
    requires Contiguous(ranges, lo, hi) && Free(ranges, start, end) && start < end <= hi
    ensures SplitAll(ranges, start, end) == below + above
    ensures Contiguous(below, lo, Max(lo, start)) && Contiguous(above, Max(lo, end), hi)
    decreases |ranges|
  {
    hide Contiguous, Split, SplitAll, Lower, Upper, Free;
    ContiguousBounds(ranges, lo, hi);
    if lo >= end || ranges == [] {
      SplitUntouched(ranges, start, end);
      NoneLeft(ranges, lo, hi);
      below, above := [], ranges;
      assert below + above == ranges;
    } else {
      var r := ranges[0];
      ContiguousHead(ranges, lo, hi);
      FreeTail(ranges, start, end);
      SplitAllCons(ranges, start, end);
      var below', above' := SplitCutsOut(ranges[1..], r.end, hi, start, end);
      if r.end <= start {
        UntouchedBelow(r, start, end);
        ContiguousCons(r, below', start);
        below, above := [r] + below', above';
        Assoc([r], below', above');
      } else {
        NotAccepted(ranges, start, end);
        ContiguousBounds(below', r.end, r.end);
        CutFirst(r, start, end, above', hi);
        below, above := Lower(r, start), Upper(r, end) + above';
        Assoc(below, Upper(r, end), above');
        assert below' + above' == above';
      }
    }
  }

  lemma NoneLeft(ranges: seq<Range>, lo: int, hi: int)
    requires Contiguous(ranges, lo, hi)
    ensures Contiguous([], lo, lo) && (ranges == [] ==> lo == hi)
  {
  }

  lemma ContiguousHead(ranges: seq<Range>, lo: int, hi: int)
    requires Contiguous(ranges, lo, hi) && ranges != []
    ensures ranges[0].start == lo < ranges[0].end && Contiguous(ranges[1..], ranges[0].end, hi)
  {
  }

  lemma FreeTail(ranges: seq<Range>, start: int, end: int)
    requires Free(ranges, start, end) && ranges != []
    ensures Free(ranges[1..], start, end)
  {
    assert forall q <- ranges[1..] :: q in ranges;
  }

  lemma SplitAllCons(ranges: seq<Range>, start: int, end: int)
    requires ranges != []
    ensures SplitAll(ranges, start, end) == Split(ranges[0], start, end) + SplitAll(ranges[1..], start, end)
  {
  }

  lemma ContiguousCons(r: Range, rest: seq<Range>, hi: int)
    requires r.start < r.end && Contiguous(rest, r.end, hi)
    ensures Contiguous([r] + rest, r.start, hi)
  {
    assert ([r] + rest)[1..] == rest;
  }

  lemma UntouchedBelow(r: Range, start: int, end: int)
    requires r.end <= start
    ensures Split(r, start, end) == [r]
  {
  }

  lemma NotAccepted(ranges: seq<Range>, start: int, end: int)
    requires ranges != [] && Free(ranges, start, end) && ranges[0].end > start && ranges[0].start < end
    ensures !ranges[0].accepted
  {
    assert ranges[0] in ranges;
  }

  lemma AcceptContiguous(ranges: seq<Range>, lo: int, hi: int, start: int, end: int)
    requires Contiguous(ranges, lo, hi) && Free(ranges, start, end) && lo <= start < end <= hi
    ensures Contiguous(Accept(ranges, start, end), lo, hi)
  {
    var below, above := SplitCutsOut(ranges, lo, hi, start, end);
    var t := Range(true, start, end);
    ContiguousConcat(below, [t], lo, start, end) by {
      assert [t][1..] == [];
    }
    ContiguousConcat(below + [t], above, lo, end, hi);
    hide Contiguous, Free;
    ContiguousBounds(below + [t] + above, lo, hi);
    assert multiset(below + [t] + above) == multiset(below + above + [t]);
    SortIs(below + above + [t], below + [t] + above, START);
  }

  /** The accepted intervals are non-empty, inside the memory and pairwise disjoint. */
  predicate DisjointInside(memory: nat, taken: seq<(int, int)>) {
    && (forall t <- taken :: 0 <= t.0 < t.1 <= memory)
    && (forall i, j | 0 <= i < j < |taken| :: taken[i].1 <= taken[j].0 || taken[j].1 <= taken[i].0)
  }

  /** Accepted ranges are exactly the accepted intervals. */
  lemma {:induction false} AcceptedAreTaken(memory: nat, taken: seq<(int, int)>, r: Range)
    requires r in AcceptAll(memory, taken) && r.accepted
    ensures (r.start, r.end) in taken
  {
    var n := |taken|;
    if n > 0 {
      var before := AcceptAll(memory, taken[..n - 1]);
      var (start, end) := taken[n - 1];
      if start < end {
        SortMembers(SplitAll(before, start, end) + [Range(true, start, end)], START, r);
        if r in SplitAll(before, start, end) {
          SplitAccepted(before, start, end, r);
          AcceptedAreTaken(memory, taken[..n - 1], r);
          assert (r.start, r.end) in taken[..n - 1];
        }
      } else {
        AcceptedAreTaken(memory, taken[..n - 1], r);
        assert (r.start, r.end) in taken[..n - 1];
      }
    }
  }

  lemma {:induction false} SplitAccepted(ranges: seq<Range>, start: int, end: int, r: Range)
    requires r in SplitAll(ranges, start, end) && r.accepted
    ensures r in ranges
  {
    if ranges != [] && r !in Split(ranges[0], start, end) {
      SplitAccepted(ranges[1..], start, end, r);
    }
  }

  lemma FreeOfOthers(memory: nat, taken: seq<(int, int)>)
    requires taken != [] && DisjointInside(memory, taken)
    ensures var n := |taken|; Free(AcceptAll(memory, taken[..n - 1]), taken[n - 1].0, taken[n - 1].1)
  {
    var before := taken[..|taken| - 1];
    var (start, end) := taken[|taken| - 1];
    hide AcceptAll;
    forall r <- AcceptAll(memory, before) | r.accepted ensures r.end <= start || r.start >= end {
      AcceptedAreTaken(memory, before, r);
      var i :| 0 <= i < |before| && before[i] == (r.start, r.end);
      assert taken[i] == before[i];
    }
  }

  /** Disjoint accepted sections inside the memory leave non-empty ranges in order that partition it. */
  lemma {:induction false} RangesPartition(memory: nat, taken: seq<(int, int)>)
    requires memory > 0 && DisjointInside(memory, taken)
    ensures Contiguous(AcceptAll(memory, taken), 0, memory)
  {
    var n := |taken|;
    if n == 0 {
      assert AcceptAll(memory, taken)[1..] == [];
    } else {
      var before := taken[..n - 1];
      var ranges := AcceptAll(memory, before);
      var (start, end) := taken[n - 1];
      assert AcceptAll(memory, taken) == Accept(ranges, start, end);
      hide AcceptAll, Accept, Contiguous;
      assert forall t <- before :: t in taken;
      RangesPartition(memory, before);
      assert taken[n - 1] in taken;
      FreeOfOthers(memory, taken);
      AcceptContiguous(ranges, 0, memory, start, end);
    }
  }

  // ----- what the ranges are, one by one

  lemma {:induction false} SplitKeepsAccepted(ranges: seq<Range>, start: int, end: int, r: Range)
    requires r in ranges && r.accepted
    ensures r in SplitAll(ranges, start, end)
  {
    if r != ranges[0] {
      assert r in ranges[1..];
      SplitKeepsAccepted(ranges[1..], start, end, r);
    } else {
      assert r in Split(ranges[0], start, end);
    }
  }

  /** Every interval that is not empty is an accepted range, whole. */
  lemma {:induction false} TakenAreAccepted(memory: nat, taken: seq<(int, int)>, t: (int, int))
    requires t in taken && t.0 < t.1
    ensures Range(true, t.0, t.1) in AcceptAll(memory, taken)
  {
    hide SplitAll, Sort;
    var n := |taken|;
    var before := AcceptAll(memory, taken[..n - 1]);
    var (start, end) := taken[n - 1];
    var r := Range(true, t.0, t.1);
    assert t == taken[n - 1] || t in taken[..n - 1];
    if t != taken[n - 1] {
      TakenAreAccepted(memory, taken[..n - 1], t);
      SplitKeepsAccepted(before, start, end, r);
    }
    if start < end {
      SortMembers(SplitAll(before, start, end) + [Range(true, start, end)], START, r);
    }
  }

  /** An unaccepted range begins at 0 or where an interval ends, and ends with the memory or where an interval begins. */
  predicate Bordered(memory: nat, taken: seq<(int, int)>, r: Range) {
    && (r.start == 0 || exists t <- taken :: t.1 == r.start)
    && (r.end == memory || exists t <- taken :: t.0 == r.end)
  }

  lemma BorderedMore(memory: nat, taken: seq<(int, int)>, t: (int, int), r: Range)
    requires Bordered(memory, taken, r)
    ensures Bordered(memory, taken + [t], r)
  {
    assert forall u :: u in taken ==> u in taken + [t];
  }

  lemma SplitBordered(memory: nat, taken: seq<(int, int)>, t: (int, int), q: Range, r: Range)
    requires !q.accepted ==> Bordered(memory, taken, q)
    requires r in Split(q, t.0, t.1) && !r.accepted
    ensures Bordered(memory, taken + [t], r)
  {
    assert t in taken + [t] && forall u :: u in taken ==> u in taken + [t];
  }

  lemma {:induction false} SplitAllFrom(ranges: seq<Range>, start: int, end: int, r: Range) returns (q: Range)
    requires r in SplitAll(ranges, start, end)
    ensures q in ranges && r in Split(q, start, end)
  {
    hide Split;
    if r in Split(ranges[0], start, end) {
      q := ranges[0];
    } else {
      q := SplitAllFrom(ranges[1..], start, end, r);
    }
  }

  lemma {:induction false} UnacceptedBordered(memory: nat, taken: seq<(int, int)>, r: Range)
    requires r in AcceptAll(memory, taken) && !r.accepted
    ensures Bordered(memory, taken, r)
  {
    hide SplitAll, Split, Sort, Bordered;
    var n := |taken|;
    if n == 0 {
      WholeBordered(memory, r);
    } else {
      var before := AcceptAll(memory, taken[..n - 1]);
      var (start, end) := taken[n - 1];
      assert taken == taken[..n - 1] + [(start, end)];
      if start < end {
        SortMembers(SplitAll(before, start, end) + [Range(true, start, end)], START, r);
        var q := SplitAllFrom(before, start, end, r);
        if !q.accepted {
          UnacceptedBordered(memory, taken[..n - 1], q);
        }
        SplitBordered(memory, taken[..n - 1], (start, end), q, r);
      } else {
        UnacceptedBordered(memory, taken[..n - 1], r);
        BorderedMore(memory, taken[..n - 1], (start, end), r);
      }
    }
  }

  lemma WholeBordered(memory: nat, r: Range)
    requires r == Range(false, 0, memory)
    ensures Bordered(memory, [], r)
  {
  }

  /** No two unaccepted ranges meet: between the intervals, each gap is one range. */
  lemma GapsAreWhole(memory: nat, taken: seq<(int, int)>, q: Range, r: Range)
    requires DisjointInside(memory, taken) && q in AcceptAll(memory, taken) && r in AcceptAll(memory, taken)
    requires !q.accepted && !r.accepted && 0 <= r.start < r.end <= memory
    ensures q.end != r.start
  {
    hide AcceptAll, Covers;
    if q.end == r.start {
      UnacceptedBordered(memory, taken, q);
      var t :| t in taken && t.0 == r.start;
      UnacceptedExactly(memory, taken, r.start);
      CoveredBy(AcceptAll(memory, taken), r);
    }
  }

  lemma CoveredBy(ranges: seq<Range>, r: Range)
    requires r in ranges && r.start < r.end
    ensures Covers(ranges, r.accepted, r.start)
  {
  }
}
