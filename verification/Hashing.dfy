/** Digests as arbitrary functions with 48-byte results; "equal digests" always reads "equal inputs, or here are two
    different inputs with one digest". */
module Hashing {
  import opened Bytes

  const DIGEST_SIZE := 48

  type Hash = h: bytes -> bytes | forall b :: |h(b)| == DIGEST_SIZE witness (b: bytes) => Zeros(DIGEST_SIZE)

  /** Two different inputs with one digest. */
  predicate Collides(h: Hash, p: (bytes, bytes)) {
    p.0 != p.1 && h(p.0) == h(p.1)
  }

  /** The register after events were extended into it one after another. */
  function Extended(h: Hash, start: bytes, events: seq<bytes>): bytes {
    var n := |events|;
    if n == 0 then start else h(Extended(h, start, events[..n - 1]) + events[n - 1])
  }

  /** The last place where two equally long chains hash different inputs. */
  function ChainPair(h: Hash, start: bytes, xs: seq<bytes>, start': bytes, ys: seq<bytes>): (bytes, bytes)
    requires |xs| == |ys|
  {
    var n := |xs|;
    if n == 0 then ([], [])
    else
      var a, b := Extended(h, start, xs[..n - 1]) + xs[n - 1], Extended(h, start', ys[..n - 1]) + ys[n - 1];
      if a != b then (a, b) else ChainPair(h, start, xs[..n - 1], start', ys[..n - 1])
  }

  lemma {:induction false} ExtendedSize(h: Hash, start: bytes, events: seq<bytes>)
    requires |start| == DIGEST_SIZE
    ensures |Extended(h, start, events)| == DIGEST_SIZE
  {
  }

  lemma ExtendedLast(h: Hash, start: bytes, events: seq<bytes>, e: bytes)
    ensures Extended(h, start, events + [e]) == h(Extended(h, start, events) + e)
  {
    assert (events + [e])[..|events|] == events;
  }

  /** Extending by more events goes on from the register they found. */
  lemma {:induction false} ExtendedConcat(h: Hash, start: bytes, xs: seq<bytes>, ys: seq<bytes>)
    ensures Extended(h, start, xs + ys) == Extended(h, Extended(h, start, xs), ys)
  {
    if ys == [] {
      assert xs + ys == xs;
    } else {
      var n := |ys| - 1;
      ExtendedConcat(h, start, xs, ys[..n]);
      hide Extended;
      ExtendedLast(h, start, xs + ys[..n], ys[n]);
      ExtendedLast(h, Extended(h, start, xs), ys[..n], ys[n]);
      assert ys[..n] + [ys[n]] == ys;
      assert (xs + ys[..n]) + [ys[n]] == xs + ys;
    }
  }

  lemma PairLast(h: Hash, start: bytes, xs: seq<bytes>, x: bytes, start': bytes, ys: seq<bytes>, y: bytes)
    requires |xs| == |ys|
    ensures ChainPair(h, start, xs + [x], start', ys + [y]) ==
      var a, b := Extended(h, start, xs) + x, Extended(h, start', ys) + y;
      if a != b then (a, b) else ChainPair(h, start, xs, start', ys)
  {
    hide Extended;
    assert (xs + [x])[..|xs|] == xs && (ys + [y])[..|ys|] == ys;
  }

  /** Equally many events that lead to the same register are the same events from the same start, or the chains show a
      collision. */
  lemma {:induction false} EqualChains(h: Hash, start: bytes, xs: seq<bytes>, start': bytes, ys: seq<bytes>)
    requires |start| == |start'| == DIGEST_SIZE && |xs| == |ys|
    requires Extended(h, start, xs) == Extended(h, start', ys)
    ensures (start == start' && xs == ys) || Collides(h, ChainPair(h, start, xs, start', ys))
  {
    var n := |xs|;
    if n > 0 {
      hide Extended, ChainPair;
      var xs', ys' := xs[..n - 1], ys[..n - 1];
      assert xs == xs' + [xs[n - 1]] && ys == ys' + [ys[n - 1]];
      PairLast(h, start, xs', xs[n - 1], start', ys', ys[n - 1]);
      ExtendedLast(h, start, xs', xs[n - 1]);
      ExtendedLast(h, start', ys', ys[n - 1]);
      var x, y := Extended(h, start, xs'), Extended(h, start', ys');
      ExtendedSize(h, start, xs');
      ExtendedSize(h, start', ys');
      if x + xs[n - 1] == y + ys[n - 1] {
        SameCut(x, xs[n - 1], y, ys[n - 1]);
        EqualChains(h, start, xs', start', ys');
      }
    }
  }
}
