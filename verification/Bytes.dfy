/** Bytes, little-endian integers and the slicing helpers shared by every module. */
module Bytes {
  type byte = n: nat | n < 256
  type bytes = seq<byte>

  datatype Option<+T> = None | Some(value: T) {
    predicate IsFailure() { None? }

    function PropagateFailure<U>(): Option<U>
      requires None?
    {
      None
    }

    function Extract(): T
      requires Some?
    {
      value
    }
  }

  /** What a loop has collected so far, in front of what is still to come. */
  function Prepend<T>(done: seq<T>, rest: Option<seq<T>>): (r: Option<seq<T>>)
    ensures done == [] ==> r == rest
    ensures rest == Some([]) ==> r == Some(done)
  {
    assert done + [] == done && (rest.Some? ==> [] + rest.value == rest.value);
    if rest.Some? then Some(done + rest.value) else None
  }

  lemma PrependMore<T>(done: seq<T>, more: seq<T>, rest: Option<seq<T>>)
    ensures Prepend(done + more, rest) == Prepend(done, Prepend(more, rest))
  {
    if rest.Some? {
      assert (done + more) + rest.value == done + (more + rest.value);
    }
  }

  /** 256 to the power `w`. */
  function Pow256(w: nat): (p: nat)
    ensures p > 0
  {
    if w == 0 then 1 else 256 * Pow256(w - 1)
  }

  /** The `w` low bytes of `n`, least significant first. Negative numbers come out in two's complement. */
  function Le(n: int, w: nat): (b: bytes)
    ensures |b| == w
    decreases w
  {
    if w == 0 then [] else [n % 256] + Le(n / 256, w - 1)
  }

  function UnLe(b: bytes): (n: nat)
    ensures n < Pow256(|b|)
  {
    if b == [] then 0 else b[0] + 256 * UnLe(b[1..])
  }

  lemma {:induction false} UnLeLe(n: nat, w: nat)
    requires n < Pow256(w)
    ensures UnLe(Le(n, w)) == n
  {
    if w > 0 {
      UnLeLe(n / 256, w - 1);
      assert Le(n, w)[1..] == Le(n / 256, w - 1);
    }
  }

  lemma {:induction false} LeUnLe(b: bytes)
    ensures Le(UnLe(b), |b|) == b
  {
    if b != [] {
      var rest := UnLe(b[1..]);
      LeUnLe(b[1..]);
      assert (b[0] + 256 * rest) % 256 == b[0] && (b[0] + 256 * rest) / 256 == rest;
      assert b == [b[0]] + b[1..];
    }
  }

  lemma PowValues()
    ensures Pow256(1) == 0x100 && Pow256(2) == 0x1_0000
    ensures Pow256(4) == 0x1_0000_0000 && Pow256(8) == 0x1_0000_0000_0000_0000
  {
    assert Pow256(1) == 256 * Pow256(0);
    assert Pow256(2) == 256 * Pow256(1);
    assert Pow256(3) == 256 * Pow256(2);
    assert Pow256(4) == 256 * Pow256(3);
    assert Pow256(5) == 256 * Pow256(4);
    assert Pow256(6) == 256 * Pow256(5);
    assert Pow256(7) == 256 * Pow256(6);
    assert Pow256(8) == 256 * Pow256(7);
  }

  lemma {:induction false} LeZero(w: nat)
    ensures Le(0, w) == Zeros(w)
  {
    if w > 0 {
      LeZero(w - 1);
    }
  }

  /** A number of one byte. */
  lemma LeByte(n: byte, w: nat)
    requires w > 0
    ensures Le(n, w) == [n] + Zeros(w - 1)
  {
    LeZero(w - 1);
  }

  lemma LeInjective(m: nat, n: nat, w: nat)
    requires m < Pow256(w) && n < Pow256(w)
    requires Le(m, w) == Le(n, w)
    ensures m == n
  {
    UnLeLe(m, w);
    UnLeLe(n, w);
  }

  lemma LeDiffers(m: nat, n: nat, w: nat)
    requires m < Pow256(w) && n < Pow256(w) && m != n
    ensures Le(m, w) != Le(n, w)
  {
    hide Le, Pow256;
    if Le(m, w) == Le(n, w) {
      LeInjective(m, n, w);
    }
  }

  function Zeros(n: nat): (b: bytes)
    ensures |b| == n
  {
    seq(n, _ => 0)
  }

  /** `b[lo..hi]` cut to the length of `b`, empty when the bounds cross (non-negative bounds of
      a JavaScript `slice` or `subarray`, and of a Python slice). */
  function Slice(b: bytes, lo: nat, hi: nat): (s: bytes)
    ensures lo <= hi <= |b| ==> s == b[lo..hi]
    ensures |s| > 0 ==> lo + |s| <= |b|
    ensures lo <= hi ==> |s| <= hi - lo
  {
    var h := if hi < |b| then hi else |b|;
    if lo < h then b[lo..h] else []
  }

  function Index(n: nat, i: int): (r: nat)
    ensures r <= n
  {
    if i < 0 then (if n + i < 0 then 0 else n + i) else if i > n then n else i
  }

  /** `b[i:j]` of Python, `b.slice(i, j)` of JavaScript: a negative bound counts from the end. */
  function RelSlice(b: bytes, i: int, j: int): (s: bytes)
    ensures 0 <= i <= j <= |b| ==> s == b[i..j]
  {
    var lo, hi := Index(|b|, i), Index(|b|, j);
    if lo < hi then b[lo..hi] else []
  }

  /** A slice that starts inside `b` is the piece of `b` of its length. */
  lemma SliceIsPiece(b: bytes, lo: nat, hi: nat)
    requires lo <= |b| && lo <= hi
    ensures lo + |Slice(b, lo, hi)| <= |b| && Slice(b, lo, hi) == b[lo..lo + |Slice(b, lo, hi)|]
    ensures |Slice(b, lo, hi)| == if hi <= |b| then hi - lo else |b| - lo
  {
  }

  /** The little-endian integer of `w` bytes at `at`, or nothing when it does not lie inside `b`
      (a `DataView` getter, or `struct.unpack_from`). */
  function Get(b: bytes, at: int, w: nat): (n: Option<nat>)
    ensures n.Some? <==> 0 <= at && at + w <= |b|
    ensures n.Some? ==> n.value < Pow256(w)
  {
    if 0 <= at && at + w <= |b| then Some(UnLe(b[at..at + w])) else None
  }

  /** Two, four or eight bytes from `at` on, the lowest first, spelled out. */
  function Low2(b: bytes, at: nat): nat
    requires at + 2 <= |b|
  {
    b[at] as nat + 0x100 * b[at + 1] as nat
  }

  function Low4(b: bytes, at: nat): nat
    requires at + 4 <= |b|
  {
    b[at] as nat + 0x100 * b[at + 1] as nat + 0x1_0000 * b[at + 2] as nat + 0x100_0000 * b[at + 3] as nat
  }

  function Low8(b: bytes, at: nat): nat
    requires at + 8 <= |b|
  {
    Low4(b, at) + 0x1_0000_0000 * Low4(b, at + 4)
  }

  lemma UnLeStep(b: bytes)
    requires b != []
    ensures UnLe(b) == b[0] + 256 * UnLe(b[1..])
  {
  }

  lemma UnLe2(b: bytes)
    requires |b| == 2
    ensures UnLe(b) == Low2(b, 0)
  {
    hide UnLe;
    UnLeStep(b);
    UnLeStep(b[1..]);
    assert b[1..][1..] == [];
    NoBytes();
  }

  lemma UnLe4(b: bytes)
    requires |b| == 4
    ensures UnLe(b) == Low4(b, 0)
  {
    hide UnLe;
    UnLeStep(b);
    UnLeStep(b[1..]);
    assert b[1..][1..] == b[2..];
    UnLe2(b[2..]);
  }

  lemma FourSteps(b: bytes)
    requires |b| >= 4
    ensures UnLe(b) == Low4(b, 0) + 0x1_0000_0000 * UnLe(b[4..])
  {
    hide UnLe;
    UnLeStep(b);
    UnLeStep(b[1..]);
    UnLeStep(b[2..]);
    UnLeStep(b[3..]);
    assert b[1..][1..] == b[2..];
    assert b[2..][1..] == b[3..];
    assert b[3..][1..] == b[4..];
  }

  lemma UnLe8(b: bytes)
    requires |b| == 8
    ensures UnLe(b) == Low8(b, 0)
  {
    hide UnLe;
    FourSteps(b);
    UnLe4(b[4..]);
  }

  lemma NoBytes()
    ensures UnLe([]) == 0
  {
  }

  /** What the getters read, spelled out. */
  lemma GetIs(b: bytes, at: int)
    ensures Get(b, at, 1) == if 0 <= at && at + 1 <= |b| then Some(b[at] as nat) else None
    ensures Get(b, at, 2) == if 0 <= at && at + 2 <= |b| then Some(Low2(b, at)) else None
    ensures Get(b, at, 4) == if 0 <= at && at + 4 <= |b| then Some(Low4(b, at)) else None
    ensures Get(b, at, 8) == if 0 <= at && at + 8 <= |b| then Some(Low8(b, at)) else None
  {
    hide UnLe;
    if 0 <= at && at + 1 <= |b| { UnLeStep(b[at..at + 1]); NoBytes(); assert b[at..at + 1][1..] == []; }
    if 0 <= at && at + 2 <= |b| { UnLe2(b[at..at + 2]); }
    if 0 <= at && at + 4 <= |b| { UnLe4(b[at..at + 4]); }
    if 0 <= at && at + 8 <= |b| { UnLe8(b[at..at + 8]); }
  }

  lemma GetLe(b: bytes, at: int, w: nat)
    requires Get(b, at, w).Some?
    ensures Le(Get(b, at, w).value, w) == b[at..at + w]
  {
    LeUnLe(b[at..at + w]);
  }

  /** `b` with `data` written over it at `at`, or nothing when it does not fit (`Uint8Array.set`). */
  function Put(b: bytes, at: nat, data: bytes): (r: Option<bytes>)
    ensures r.Some? <==> at + |data| <= |b|
    ensures r.Some? ==> |r.value| == |b|
  {
    if at + |data| <= |b| then Some(b[..at] + data + b[at + |data|..]) else None
  }

  /** `Put` on a mutable buffer. */
  method Store(buffer: array<byte>, at: nat, data: bytes) returns (ok: bool)
    modifies buffer
    ensures ok <==> at + |data| <= buffer.Length
    ensures ok ==> Put(old(buffer[..]), at, data) == Some(buffer[..])
    ensures !ok ==> buffer[..] == old(buffer[..])
  {
    ok := at + |data| <= buffer.Length;
    if ok {
      forall k | 0 <= k < |data| {
        buffer[at + k] := data[k];
      }
      assert buffer[..] == old(buffer[..at]) + data + old(buffer[at + |data|..]);
    }
  }

  lemma Cut(b: bytes, at: nat, x: bytes, y: bytes)
    requires at <= |b| && b[at..] == x + y
    ensures at + |x| <= |b| && b[at..at + |x|] == x && b[at + |x|..] == y
  {
    assert b[at..at + |x|] == b[at..][..|x|];
    assert b[at + |x|..] == b[at..][|x|..];
  }

  lemma SameCut<T>(a: seq<T>, b: seq<T>, x: seq<T>, y: seq<T>)
    requires a + b == x + y && |a| == |x|
    ensures a == x && b == y
  {
    assert a == (a + b)[..|a|] && x == (x + y)[..|x|] && b == (a + b)[|a|..] && y == (x + y)[|x|..];
  }

  lemma Assoc<T>(a: seq<T>, b: seq<T>, c: seq<T>)
    ensures (a + b) + c == a + (b + c)
  {
  }

  lemma PieceOfTake(b: bytes, n: nat, i: nat, j: nat)
    requires i <= j <= n <= |b|
    ensures b[..n][i..j] == b[i..j]
  {
  }

  lemma PieceOfPiece(b: bytes, lo: nat, hi: nat, i: nat, j: nat)
    requires lo <= hi <= |b| && i <= j <= hi - lo
    ensures b[lo..hi][i..j] == b[lo + i..lo + j]
  {
    var x, y := b[lo..hi][i..j], b[lo + i..lo + j];
    assert |x| == |y| && forall k | 0 <= k < |x| :: x[k] == y[k];
  }

  lemma PieceOfDrop(b: bytes, lo: nat, i: nat, j: nat)
    requires lo <= |b| && i <= j <= |b| - lo
    ensures b[lo..][i..j] == b[lo + i..lo + j]
  {
    var x, y := b[lo..][i..j], b[lo + i..lo + j];
    assert |x| == |y| && forall k | 0 <= k < |x| :: x[k] == y[k];
  }

  lemma PrefixMiddle(x: bytes, y: bytes, z: bytes, b: bytes)
    requires x + y + z <= b
    ensures b[|x|..|x| + |y|] == y
  {
    assert b[|x|..|x| + |y|] == (x + y + z)[|x|..|x| + |y|];
  }

  /** What differs in its middle from the place it would take is no prefix. */
  lemma MiddleDiffers(x: bytes, y: bytes, z: bytes, b: bytes)
    requires |x| + |y| <= |b| && b[|x|..|x| + |y|] != y
    ensures !(x + y + z <= b)
  {
    if x + y + z <= b {
      PrefixMiddle(x, y, z, b);
    }
  }

  lemma Split2(b: bytes, i: nat, j: nat, k: nat)
    requires i <= j <= k <= |b|
    ensures b[i..k] == b[i..j] + b[j..k]
  {
  }

  lemma Split3(b: bytes, i: nat, j: nat, k: nat, l: nat)
    requires i <= j <= k <= l <= |b|
    ensures b[i..l] == b[i..j] + b[j..k] + b[k..l]
  {
  }

  lemma Split4(b: bytes, i: nat, j: nat, k: nat, l: nat, m: nat)
    requires i <= j <= k <= l <= m <= |b|
    ensures b[i..m] == b[i..j] + b[j..k] + b[k..l] + b[l..m]
  {
    Split3(b, i, j, k, l);
  }

  lemma FourPieces(data: bytes, at: nat, p: bytes, q: bytes, r: bytes, s: bytes)
    requires at + |p + q + r + s| <= |data| && data[at..at + |p + q + r + s|] == p + q + r + s
    ensures data[at..at + |p|] == p && data[at + |p|..at + |p| + |q|] == q
    ensures data[at + |p| + |q|..at + |p| + |q| + |r|] == r
    ensures data[at + |p| + |q| + |r|..at + |p| + |q| + |r| + |s|] == s
  {
    assert p + q + r + s == p + (q + (r + s));
    TwoPieces(data, at, p, q + (r + s));
    TwoPieces(data, at + |p|, q, r + s);
    TwoPieces(data, at + |p| + |q|, r, s);
  }

  lemma TwoPieces(data: bytes, at: nat, p: bytes, q: bytes)
    requires at + |p| + |q| <= |data| && data[at..at + |p| + |q|] == p + q
    ensures data[at..at + |p|] == p && data[at + |p|..at + |p| + |q|] == q
  {
    PieceOfPiece(data, at, at + |p| + |q|, 0, |p|);
    PieceOfPiece(data, at, at + |p| + |q|, |p|, |p| + |q|);
    assert (p + q)[0..|p|] == p && (p + q)[|p|..|p| + |q|] == q;
  }

  function SumOf(sizes: seq<nat>): nat {
    var n := |sizes|;
    if n == 0 then 0 else SumOf(sizes[..n - 1]) + sizes[n - 1]
  }

  function Concat(parts: seq<bytes>): bytes {
    if parts == [] then [] else parts[0] + Concat(parts[1..])
  }

  lemma ConcatFirst(p: bytes, rest: seq<bytes>)
    ensures Concat([p] + rest) == p + Concat(rest)
  {
    assert ([p] + rest)[1..] == rest;
  }

  lemma NoParts()
    ensures Concat([]) == []
  {
  }

  lemma {:induction false} ConcatAppend(ps: seq<bytes>, qs: seq<bytes>)
    ensures Concat(ps + qs) == Concat(ps) + Concat(qs)
  {
    hide Concat;
    if ps == [] {
      NoParts();
      assert ps + qs == qs && [] + Concat(qs) == Concat(qs);
    } else {
      var p, rest := ps[0], ps[1..];
      ConcatAppend(rest, qs);
      ConcatFirst(p, rest);
      ConcatFirst(p, rest + qs);
      assert [p] + rest == ps && [p] + (rest + qs) == ps + qs;
      Assoc(p, Concat(rest), Concat(qs));
    }
  }

  lemma ConcatLast(ps: seq<bytes>, p: bytes)
    ensures Concat(ps + [p]) == Concat(ps) + p
  {
    hide Concat;
    ConcatAppend(ps, [p]);
    ConcatFirst(p, []);
    NoParts();
    assert [p] + [] == [p] && p + [] == p;
  }

  /** Copies the parts one after another into one buffer, as every packer of the browser tool ends. */
  method Join(parts: seq<bytes>) returns (out: bytes)
    ensures out == Concat(parts)
  {
    var total := 0;
    for i := 0 to |parts|
      invariant total == |Concat(parts[..i])|
    {
      ConcatLast(parts[..i], parts[i]);
      assert parts[..i + 1] == parts[..i] + [parts[i]];
      total := total + |parts[i]|;
    }
    assert parts[..|parts|] == parts;
    var buffer := new byte[total](_ => 0);
    var offset := 0;
    for i := 0 to |parts|
      invariant offset == |Concat(parts[..i])| <= total
      invariant buffer[..offset] == Concat(parts[..i])
    {
      ConcatLast(parts[..i], parts[i]);
      assert parts[..i + 1] == parts[..i] + [parts[i]];
      ConcatAppend(parts[..i + 1], parts[i + 1..]);
      assert parts[..i + 1] + parts[i + 1..] == parts;
      ghost var done := buffer[..offset];
      var _ := Store(buffer, offset, parts[i]);
      assert buffer[..offset + |parts[i]|] == done + parts[i];
      offset := offset + |parts[i]|;
    }
    assert parts[..|parts|] == parts;
    out := buffer[..];
  }
}
