/** The bytes of a PE image that an Authenticode signature covers (`authenticode` of binutil.js). */
module Authenticode {
  import opened Bytes
  import opened Sorting

  datatype Piece = Piece(pointer: nat, size: nat)

  /** Where the parts left out lie, where the headers end, the certificate table, and the non-empty sections in the
      order of their headers. */
  datatype Layout = Layout(checksum: nat, dir: nat, headers: nat, cert: nat, sections: seq<Piece>)

  const BY_OFFSET := (p: Piece) => p.pointer

  // ----- reading the headers; a getter throws outside the image

  function ReadSections(b: bytes, at: nat, n: nat, i: nat): Option<seq<Piece>>
    requires i <= n
    decreases n - i
  {
    if i == n then Some([])
    else
      var size :- Get(b, at + 40 * i + 16, 4);
      var pointer :- Get(b, at + 40 * i + 20, 4);
      var rest :- ReadSections(b, at, n, i + 1);
      Some((if size > 0 then [Piece(pointer, size)] else []) + rest)
  }

  function PeOffset(b: bytes): Option<nat> {
    var mz :- Get(b, 0, 2);
    var pe :- if mz == 0x5A4D then Get(b, 0x3C, 4) else None;
    var signature :- Get(b, pe, 4);
    if signature == 0x00004550 then Some(pe) else None
  }

  function ReadLayout(b: bytes): Option<Layout> {
    var pe :- PeOffset(b);
    var count :- Get(b, pe + 6, 2);
    var optional :- Get(b, pe + 20, 2);
    var magic :- Get(b, pe + 24, 2);
    var headers :- Get(b, pe + 24 + 60, 4);
    var dir := pe + 24 + (if magic == 0x020B then 144 else 128);
    var cert :- Get(b, dir, 4);
    var sections :- ReadSections(b, pe + 24 + optional, count, 0);
    Some(Layout(pe + 24 + 64, dir, headers, cert, sections))
  }

  // ----- assembling the covered bytes

  /** The sections in order, and how far they reach. */
  function SectionBytes(b: bytes, sections: seq<Piece>): bytes {
    var n := |sections|;
    if n == 0 then []
    else SectionBytes(b, sections[..n - 1]) + Slice(b, sections[n - 1].pointer, sections[n - 1].pointer + sections[n - 1].size)
  }

  function Reach(from: nat, sections: seq<Piece>): nat {
    var n := |sections|;
    if n == 0 then from
    else
      var end := sections[n - 1].pointer + sections[n - 1].size;
      if end > Reach(from, sections[..n - 1]) then end else Reach(from, sections[..n - 1])
  }

  /** Where the file ends for the signature: at its certificate table, if it has one. */
  function Limit(b: bytes, l: Layout): nat {
    if 0 < l.cert < |b| then l.cert else |b|
  }

  function Assemble(b: bytes, l: Layout): bytes {
    var sorted := Sort(l.sections, BY_OFFSET);
    Slice(b, 0, l.checksum) + Slice(b, l.checksum + 4, l.dir) + Slice(b, l.dir + 8, l.headers)
    + SectionBytes(b, sorted) + Slice(b, Reach(l.headers, sorted), Limit(b, l))
  }

  function Covered(b: bytes): Option<bytes> {
    var l :- ReadLayout(b);
    Some(Assemble(b, l))
  }

  method ReadSectionsLoop(b: bytes, at: nat, n: nat) returns (r: Option<seq<Piece>>)
    ensures r == ReadSections(b, at, n, 0)
  {
    hide Get;
    var sections: seq<Piece> := [];
    for i := 0 to n
      invariant ReadSections(b, at, n, 0) == Prepend(sections, ReadSections(b, at, n, i))
    {
      var headerPos := at + i * 40;
      var rawSize := Get(b, headerPos + 16, 4);
      if rawSize.None? { return None; }
      var rawPointer := Get(b, headerPos + 20, 4);
      if rawPointer.None? { return None; }
      if rawSize.value > 0 {
        PrependMore(sections, [Piece(rawPointer.value, rawSize.value)], ReadSections(b, at, n, i + 1));
        sections := sections + [Piece(rawPointer.value, rawSize.value)];
      } else {
        PrependMore(sections, [], ReadSections(b, at, n, i + 1));
        assert sections + [] == sections;
      }
    }
    r := Some(sections);
  }

  /** The chunks of `authenticode`, copied into one buffer. */
  method AuthenticodeOf(buffer: bytes) returns (r: Option<bytes>)
    ensures r == Covered(buffer)
  {
    hide Get, ReadSections, Sort, Slice, Concat, UnLe;
    var mz := Get(buffer, 0, 2);
    if mz.None? || mz.value != 0x5A4D { return None; }
    var pe := Get(buffer, 0x3C, 4);
    if pe.None? { return None; }
    var signature := Get(buffer, pe.value, 4);
    if signature.None? || signature.value != 0x00004550 { return None; }
    var numberOfSections := Get(buffer, pe.value + 6, 2);
    if numberOfSections.None? { return None; }
    var sizeOfOptionalHeader := Get(buffer, pe.value + 20, 2);
    if sizeOfOptionalHeader.None? { return None; }
    var optionalHeaderOffset := pe.value + 24;
    var magic := Get(buffer, optionalHeaderOffset, 2);
    if magic.None? { return None; }
    var isPE32Plus := magic.value == 0x020B;
    var sizeOfHeaders := Get(buffer, optionalHeaderOffset + 60, 4);
    if sizeOfHeaders.None? { return None; }
    var checksumOffset := optionalHeaderOffset + 64;
    var securityDirOffset := optionalHeaderOffset + (if isPE32Plus then 144 else 128);
    var certAddress := Get(buffer, securityDirOffset, 4);
    if certAddress.None? { return None; }
    var sections := ReadSectionsLoop(buffer, optionalHeaderOffset + sizeOfOptionalHeader.value, numberOfSections.value);
    if sections.None? { return None; }
    ghost var l := Layout(checksumOffset, securityDirOffset, sizeOfHeaders.value, certAddress.value, sections.value);
    assert ReadLayout(buffer) == Some(l);
    hide ReadLayout;
    var all := CollectChunks(buffer, checksumOffset, securityDirOffset, sizeOfHeaders.value, certAddress.value, sections.value, l);
    r := Some(all);
  }

  lemma OneChunk(p: bytes)
    ensures Concat([p]) == p
  {
    assert [p][1..] == [];
    assert p + [] == p;
  }

  method CollectChunks(u8: bytes, checksumOffset: nat, securityDirOffset: nat, sizeOfHeaders: nat, certAddress: nat,
                       found: seq<Piece>, ghost l: Layout)
    returns (r: bytes)
    requires l == Layout(checksumOffset, securityDirOffset, sizeOfHeaders, certAddress, found)
    ensures r == Assemble(u8, l)
  {
    hide Sort, Slice, Concat;
    var chunks := [Slice(u8, 0, checksumOffset)];
    OneChunk(chunks[0]);
    ConcatLast(chunks, Slice(u8, checksumOffset + 4, securityDirOffset));
    chunks := chunks + [Slice(u8, checksumOffset + 4, securityDirOffset)];
    ConcatLast(chunks, Slice(u8, securityDirOffset + 8, sizeOfHeaders));
    chunks := chunks + [Slice(u8, securityDirOffset + 8, sizeOfHeaders)];
    ghost var header := Concat(chunks);
    var sections := Sort(found, BY_OFFSET);
    var pos := sizeOfHeaders;
    assert header + [] == header;
    for i := 0 to |sections|
      invariant Concat(chunks) == header + SectionBytes(u8, sections[..i]) && pos == Reach(sizeOfHeaders, sections[..i])
    {
      var sec := sections[i];
      var data := Slice(u8, sec.pointer, sec.pointer + sec.size);
      assert sections[..i + 1][..i] == sections[..i];
      ConcatLast(chunks, data);
      Assoc(header, SectionBytes(u8, sections[..i]), data);
      chunks := chunks + [data];
      pos := if pos > sec.pointer + sec.size then pos else sec.pointer + sec.size;
    }
    assert sections[..|sections|] == sections;
    var limit := if certAddress > 0 && certAddress < |u8| then certAddress else |u8|;
    if limit > pos {
      ConcatLast(chunks, Slice(u8, pos, limit));
      chunks := chunks + [Slice(u8, pos, limit)];
    } else {
      Nothing(u8, pos, limit);
      assert Concat(chunks) + [] == Concat(chunks);
    }
    r := Join(chunks);
  }

  lemma Nothing(b: bytes, lo: nat, hi: nat)
    requires hi <= lo
    ensures Slice(b, lo, hi) == []
  {
  }

  // ----- images whose sections tile the file

  predicate Tiles(pieces: seq<Piece>, from: nat, to: nat) {
    if pieces == [] then from == to
    else pieces[0].pointer == from && pieces[0].size > 0 && Tiles(pieces[1..], from + pieces[0].size, to)
  }

  /** The sections, in some order of their headers, are `tiling`: one behind the other from the end of the headers, and
      none beyond the part of the file that is signed. */
  ghost predicate Tiled(b: bytes, tiling: seq<Piece>, to: nat) {
    var l := ReadLayout(b);
    && l.Some?
    && l.value.dir + 8 <= l.value.headers
    && multiset(l.value.sections) == multiset(tiling)
    && Tiles(tiling, l.value.headers, to)
    && to <= Limit(b, l.value)
  }

  lemma {:induction false} TilesAscend(pieces: seq<Piece>, from: nat, to: nat)
    requires Tiles(pieces, from, to)
    ensures from <= to && Strict(pieces, BY_OFFSET) && forall p <- pieces :: from <= p.pointer
  {
    if pieces != [] {
      TilesAscend(pieces[1..], from + pieces[0].size, to);
      forall i, j | 0 <= i < j < |pieces| ensures BY_OFFSET(pieces[i]) < BY_OFFSET(pieces[j]) {
        assert pieces[j] == pieces[1..][j - 1];
        if i > 0 {
          assert pieces[i] == pieces[1..][i - 1];
        } else {
          assert pieces[j] in pieces[1..];
        }
      }
      assert forall p <- pieces :: p == pieces[0] || p in pieces[1..];
    }
  }

  lemma {:induction false} TilesLast(pieces: seq<Piece>, from: nat, to: nat)
    requires Tiles(pieces, from, to) && pieces != []
    ensures var n := |pieces| - 1;
            && Tiles(pieces[..n], from, pieces[n].pointer) && pieces[n].pointer + pieces[n].size == to
            && pieces[n].size > 0
  {
    var n := |pieces| - 1;
    if n == 0 {
      assert pieces[1..] == [];
    } else {
      TilesLast(pieces[1..], from + pieces[0].size, to);
      assert pieces[1..][n - 1] == pieces[n];
      assert pieces[..n][1..] == pieces[1..][..n - 1];
    }
  }

  lemma BytesLast(b: bytes, pieces: seq<Piece>, from: nat)
    requires pieces != []
    ensures var n := |pieces| - 1;
            var end := pieces[n].pointer + pieces[n].size;
            && SectionBytes(b, pieces) == SectionBytes(b, pieces[..n]) + Slice(b, pieces[n].pointer, end)
            && Reach(from, pieces) == (if end > Reach(from, pieces[..n]) then end else Reach(from, pieces[..n]))
  {
    hide Slice;
  }

  lemma NoTiles(b: bytes, from: nat, to: nat)
    requires Tiles([], from, to)
    ensures from == to && SectionBytes(b, []) == [] && Reach(from, []) == to
  {
  }

  lemma {:induction false} TiledBytes(b: bytes, pieces: seq<Piece>, from: nat, to: nat)
    requires Tiles(pieces, from, to) && to <= |b|
    ensures from <= to && SectionBytes(b, pieces) == b[from..to] && Reach(from, pieces) == to
    decreases |pieces|
  {
    hide Tiles, SectionBytes, Reach, Slice;
    if pieces == [] {
      NoTiles(b, from, to);
    } else {
      var n := |pieces| - 1;
      var middle := pieces[n].pointer;
      TilesLast(pieces, from, to);
      TiledBytes(b, pieces[..n], from, middle);
      BytesLast(b, pieces, from);
      Inside(b, middle, to);
      Split2(b, from, middle, to);
    }
  }

  lemma Inside(b: bytes, lo: nat, hi: nat)
    requires lo <= hi <= |b|
    ensures Slice(b, lo, hi) == b[lo..hi]
  {
  }

  lemma AssembleTiled(b: bytes, l: Layout, tiling: seq<Piece>, to: nat)
    requires l.checksum + 4 <= l.dir && l.dir + 8 <= l.headers && multiset(l.sections) == multiset(tiling)
    requires Tiles(tiling, l.headers, to) && to <= Limit(b, l)
    ensures l.headers <= to <= Limit(b, l) <= |b|
    ensures Assemble(b, l) == b[..l.checksum] + b[l.checksum + 4..l.dir] + b[l.dir + 8..Limit(b, l)]
  {
    hide Tiles, SectionBytes, Reach, Sort, Slice, Limit;
    TilesAscend(tiling, l.headers, to);
    SortIs(l.sections, tiling, BY_OFFSET);
    LimitInside(b, l);
    var limit := Limit(b, l);
    TiledBytes(b, tiling, l.headers, to);
    Inside(b, 0, l.checksum);
    Inside(b, l.checksum + 4, l.dir);
    Inside(b, l.dir + 8, l.headers);
    Inside(b, to, limit);
    Split3(b, l.dir + 8, l.headers, to, limit);
    var front := b[..l.checksum] + b[l.checksum + 4..l.dir];
    Regroup(front, b[l.dir + 8..l.headers], b[l.headers..to], b[to..limit]);
    assert b[0..l.checksum] == b[..l.checksum];
  }

  lemma LimitInside(b: bytes, l: Layout)
    ensures Limit(b, l) <= |b|
  {
  }

  /** The signature of a tiled image covers the file up to its certificate table, without the four bytes of the checksum
      and the eight of the security directory. */
  lemma CoveredIs(b: bytes, tiling: seq<Piece>, to: nat)
    requires Tiled(b, tiling, to)
    ensures var l := ReadLayout(b).value;
            && l.checksum + 4 <= l.dir && l.dir + 8 <= Limit(b, l) <= |b|
            && Covered(b) == Some(b[..l.checksum] + b[l.checksum + 4..l.dir] + b[l.dir + 8..Limit(b, l)])
  {
    hide ReadLayout, Tiles, Assemble, Limit;
    LayoutPlaces(b);
    AssembleTiled(b, ReadLayout(b).value, tiling, to);
  }

  lemma Regroup(a: bytes, b: bytes, c: bytes, d: bytes)
    ensures a + b + c + d == a + (b + c + d)
  {
  }

  lemma LayoutPlaces(b: bytes)
    requires ReadLayout(b).Some?
    ensures var l := ReadLayout(b).value;
            && l.checksum >= 88 && l.checksum + 4 <= l.dir && l.dir + 4 <= |b|
            && PeOffset(b) == Some(l.checksum - 88)
  {
    hide ReadSections, PeOffset;
  }

  // ----- what the signature covers, and what it leaves free

  /** Byte `i` belongs to the checksum or the security directory. */
  predicate LeftOut(l: Layout, i: nat) {
    l.checksum <= i < l.checksum + 4 || l.dir <= i < l.dir + 8
  }

  /** The two files are the same up to equal limits, but for the parts left out. */
  ghost predicate SameButSignature(x: bytes, y: bytes)
    requires ReadLayout(x).Some? && ReadLayout(y).Some?
  {
    var l := ReadLayout(x).value;
    && Limit(x, l) == Limit(y, ReadLayout(y).value)
    && forall i | 0 <= i < Limit(x, l) && !LeftOut(l, i) :: i < |y| && x[i] == y[i]
  }

  /** Where the left out parts lie is decided by bytes that are covered. */
  lemma SamePlaces(x: bytes, y: bytes)
    requires ReadLayout(x).Some? && ReadLayout(y).Some?
    requires |x| >= 0x40 && |y| >= 0x40 && x[0x3C..0x40] == y[0x3C..0x40]
    requires var at := ReadLayout(x).value.checksum - 64;
             0 <= at && at + 2 <= |x| && at + 2 <= |y| && x[at..at + 2] == y[at..at + 2]
    ensures ReadLayout(x).value.checksum == ReadLayout(y).value.checksum && ReadLayout(x).value.dir == ReadLayout(y).value.dir
  {
    hide ReadSections, UnLe;
  }

  lemma SameMachine(x: bytes, y: bytes, l: Layout)
    requires ReadLayout(x) == Some(l) && ReadLayout(y).Some? && SameButSignature(x, y)
    requires l.checksum >= 88 && l.checksum + 4 <= l.dir && l.dir + 8 <= Limit(x, l) <= |x|
    ensures ReadLayout(y).value.checksum == l.checksum && ReadLayout(y).value.dir == l.dir
    ensures Limit(x, l) == Limit(y, ReadLayout(y).value) <= |y|
  {
    hide ReadLayout;
    assert x[0x3C..0x40] == y[0x3C..0x40];
    assert x[l.checksum - 64..l.checksum - 62] == y[l.checksum - 64..l.checksum - 62];
    SamePlaces(x, y);
  }

  /** Two tiled images are signed as the same bytes exactly when they are the same up to their certificate tables, but
      for the checksum and the security directory. */
  lemma SignedAlikeExactly(x: bytes, tx: seq<Piece>, ex: nat, y: bytes, ty: seq<Piece>, ey: nat)
    requires Tiled(x, tx, ex) && Tiled(y, ty, ey)
    ensures Covered(x) == Covered(y) <==> SameButSignature(x, y)
  {
    hide ReadLayout, Tiles, Assemble, Limit, Covered, Tiled;
    TiledReads(x, tx, ex);
    TiledReads(y, ty, ey);
    CoveredIs(x, tx, ex);
    CoveredIs(y, ty, ey);
    LayoutPlaces(x);
    LayoutPlaces(y);
    var l, m := ReadLayout(x).value, ReadLayout(y).value;
    if Covered(x) == Covered(y) {
      CutsAlike(x, l, Limit(x, l), y, m, Limit(y, m));
    }
    if SameButSignature(x, y) {
      SameMachine(x, y, l);
      CutsTheSame(x, y, l, Limit(x, l));
    }
  }

  lemma TiledReads(b: bytes, tiling: seq<Piece>, to: nat)
    requires Tiled(b, tiling, to)
    ensures ReadLayout(b).Some?
  {
  }

  lemma CutsTheSame(x: bytes, y: bytes, l: Layout, limit: nat)
    requires l.checksum + 4 <= l.dir && l.dir + 8 <= limit <= |x| && limit <= |y|
    requires forall i | 0 <= i < limit && !LeftOut(l, i) :: x[i] == y[i]
    ensures x[..l.checksum] + x[l.checksum + 4..l.dir] + x[l.dir + 8..limit]
         == y[..l.checksum] + y[l.checksum + 4..l.dir] + y[l.dir + 8..limit]
  {
    assert x[..l.checksum] == y[..l.checksum];
    assert x[l.checksum + 4..l.dir] == y[l.checksum + 4..l.dir];
    assert x[l.dir + 8..limit] == y[l.dir + 8..limit];
  }

  lemma SameParts(x: bytes, y: bytes, l: Layout, limit: nat)
    requires l.checksum + 4 <= l.dir && l.dir + 8 <= limit <= |x| && limit <= |y|
    requires x[..l.checksum] == y[..l.checksum] && x[l.checksum + 4..l.dir] == y[l.checksum + 4..l.dir]
    requires x[l.dir + 8..limit] == y[l.dir + 8..limit]
    ensures forall i | 0 <= i < limit && !LeftOut(l, i) :: x[i] == y[i]
  {
    forall i | 0 <= i < limit && !LeftOut(l, i) ensures x[i] == y[i] {
      if i < l.checksum {
        assert x[i] == x[..l.checksum][i];
      } else if i < l.dir {
        assert x[i] == x[l.checksum + 4..l.dir][i - l.checksum - 4];
      } else {
        assert x[i] == x[l.dir + 8..limit][i - l.dir - 8];
      }
    }
  }

  lemma FrontOf(b: bytes, n: nat, p: bytes, q: bytes, i: nat, j: nat)
    requires i <= j <= n <= |b|
    ensures (b[..n] + p + q)[i..j] == b[i..j]
  {
    var c := b[..n] + p + q;
    assert c[..n] == b[..n];
    PieceOfTake(c, n, i, j);
    PieceOfTake(b, n, i, j);
  }

  lemma PeRead(b: bytes)
    requires ReadLayout(b).Some?
    ensures |b| >= 0x40 && ReadLayout(b).value.checksum == 88 + UnLe(b[0x3C..0x40])
  {
    hide ReadSections, UnLe;
  }

  /** Equal covered bytes come from the same places. */
  lemma CutsAlike(x: bytes, l: Layout, limit: nat, y: bytes, m: Layout, limit': nat)
    requires ReadLayout(x) == Some(l) && ReadLayout(y) == Some(m)
    requires 88 <= l.checksum && l.checksum + 4 <= l.dir && l.dir + 8 <= limit <= |x|
    requires 88 <= m.checksum && m.checksum + 4 <= m.dir && m.dir + 8 <= limit' <= |y|
    requires x[..l.checksum] + x[l.checksum + 4..l.dir] + x[l.dir + 8..limit]
          == y[..m.checksum] + y[m.checksum + 4..m.dir] + y[m.dir + 8..limit']
    ensures limit == limit' && forall i | 0 <= i < limit && !LeftOut(l, i) :: x[i] == y[i]
  {
    hide ReadLayout;
    var c := x[..l.checksum] + x[l.checksum + 4..l.dir] + x[l.dir + 8..limit];
    FrontOf(x, l.checksum, x[l.checksum + 4..l.dir], x[l.dir + 8..limit], 0x3C, 0x40);
    FrontOf(y, m.checksum, y[m.checksum + 4..m.dir], y[m.dir + 8..limit'], 0x3C, 0x40);
    PeRead(x);
    PeRead(y);
    var at := l.checksum - 64;
    FrontOf(x, l.checksum, x[l.checksum + 4..l.dir], x[l.dir + 8..limit], at, at + 2);
    FrontOf(y, m.checksum, y[m.checksum + 4..m.dir], y[m.dir + 8..limit'], at, at + 2);
    SamePlaces(x, y);
    Assoc(x[..l.checksum], x[l.checksum + 4..l.dir], x[l.dir + 8..limit]);
    Assoc(y[..l.checksum], y[l.checksum + 4..l.dir], y[l.dir + 8..limit']);
    SameCut(x[..l.checksum], x[l.checksum + 4..l.dir] + x[l.dir + 8..limit],
            y[..l.checksum], y[l.checksum + 4..l.dir] + y[l.dir + 8..limit']);
    SameCut(x[l.checksum + 4..l.dir], x[l.dir + 8..limit], y[l.checksum + 4..l.dir], y[l.dir + 8..limit']);
    assert |x[l.dir + 8..limit]| == limit - l.dir - 8 && |y[l.dir + 8..limit']| == limit' - l.dir - 8;
    SameParts(x, y, l, limit);
  }

  // ----- signing an image

  /** A field outside the parts left out. */
  predicate Apart(l: Layout, at: int, w: nat) {
    at + w <= l.checksum || (l.checksum + 4 <= at && at + w <= l.dir) || l.dir + 8 <= at
  }

  /** No size and no pointer of the first `n` section headers reaches into the parts left out. */
  predicate HeadersApart(l: Layout, at: nat, n: nat) {
    forall i | 0 <= i < n :: HeaderApart(l, at, i)
  }

  predicate HeaderApart(l: Layout, at: nat, i: nat) {
    Apart(l, at + 40 * i + 16, 4) && Apart(l, at + 40 * i + 20, 4)
  }

  /** What is read of the section table lies outside the checksum and the security directory. */
  predicate TableApart(b: bytes)
    requires ReadLayout(b).Some?
  {
    var l := ReadLayout(b).value;
    var count, optional := Get(b, l.checksum - 88 + 6, 2), Get(b, l.checksum - 88 + 20, 2);
    count.Some? && optional.Some? && l.checksum >= 64 && HeadersApart(l, l.checksum - 64 + optional.value, count.value)
  }

  /** `s` continues `b` and agrees with it outside the parts left out. */
  ghost predicate Continues(s: bytes, b: bytes, l: Layout) {
    |b| <= |s| && forall i | 0 <= i < |b| && !LeftOut(l, i) :: s[i] == b[i]
  }

  lemma SameGet(s: bytes, b: bytes, l: Layout, at: int, w: nat)
    requires Continues(s, b, l) && Get(b, at, w).Some?
    requires Apart(l, at, w) && l.checksum + 4 <= l.dir
    ensures Get(s, at, w) == Get(b, at, w)
  {
    assert s[at..at + w] == b[at..at + w];
  }

  lemma {:induction false} SameSectionTable(s: bytes, b: bytes, l: Layout, at: nat, n: nat, i: nat)
    requires Continues(s, b, l) && l.checksum + 4 <= l.dir && HeadersApart(l, at, n)
    requires i <= n && ReadSections(b, at, n, i).Some?
    ensures ReadSections(s, at, n, i) == ReadSections(b, at, n, i)
    decreases n - i
  {
    hide Get, Continues, Apart;
    if i < n {
      assert HeaderApart(l, at, i);
      SameGet(s, b, l, at + 40 * i + 16, 4);
      SameGet(s, b, l, at + 40 * i + 20, 4);
      SameSectionTable(s, b, l, at, n, i + 1);
    }
  }

  /** Reading a continued image gives the same layout, but for the address of the certificate table. */
  lemma SameLayout(s: bytes, b: bytes)
    requires ReadLayout(b).Some? && TableApart(b) && Continues(s, b, ReadLayout(b).value)
    ensures var l := ReadLayout(b).value;
            Get(s, l.dir, 4).Some? && ReadLayout(s) == Some(l.(cert := Get(s, l.dir, 4).value))
  {
    hide UnLe, ReadSections, Continues, HeadersApart;
    var l := ReadLayout(b).value;
    LayoutPlaces(b);
    var pe := l.checksum - 88;
    SameGet(s, b, l, 0, 2);
    SameGet(s, b, l, 0x3C, 4);
    SameGet(s, b, l, pe, 4);
    SameGet(s, b, l, pe + 6, 2);
    SameGet(s, b, l, pe + 20, 2);
    SameGet(s, b, l, pe + 24, 2);
    SameGet(s, b, l, pe + 84, 4);
    SameSectionTable(s, b, l, pe + 24 + Get(b, pe + 20, 2).value, Get(b, pe + 6, 2).value, 0);
    Longer(s, b, l);
  }

  lemma Longer(s: bytes, b: bytes, l: Layout)
    requires Continues(s, b, l)
    ensures |b| <= |s|
  {
  }

  /** Setting the checksum, filling the directory and appending a certificate leave the covered bytes alone, as long as
      the signed part of the file still ends where it did. */
  lemma SigningKeeps(s: bytes, b: bytes, tiling: seq<Piece>, to: nat)
    requires Tiled(b, tiling, to) && TableApart(b) && Continues(s, b, ReadLayout(b).value)
    requires ReadLayout(s).Some? && Limit(s, ReadLayout(s).value) == Limit(b, ReadLayout(b).value)
    ensures Tiled(s, tiling, to) && Covered(s) == Covered(b)
  {
    hide ReadLayout, Covered, Tiles, Limit, TableApart;
    SameLayout(s, b);
    assert SameButSignature(b, s) by {
      LimitInside(b, ReadLayout(b).value);
    }
    SignedAlikeExactly(b, tiling, to, s, tiling, to);
  }

  /** An unsigned image with a checksum, a directory entry for what follows the image, and a certificate behind it. */
  function Sign(b: bytes, l: Layout, checksum: bytes, size: nat, certificate: bytes): bytes
    requires l.checksum + 4 <= l.dir && l.dir + 8 <= |b|
  {
    b[..l.checksum] + checksum + b[l.checksum + 4..l.dir] + (Le(|b|, 4) + Le(size, 4)) + b[l.dir + 8..] + certificate
  }

  lemma SixParts(p: bytes, q: bytes, r: bytes, d: bytes, u: bytes, v: bytes)
    ensures var s := p + q + r + d + u + v;
            && s[..|p|] == p && s[|p| + |q|..|p| + |q| + |r|] == r
            && var at := |p| + |q| + |r|;
            s[at..at + |d|] == d && s[at + |d|..at + |d| + |u|] == u
  {
    var s := p + q + r + d + u + v;
    assert s == (p + q + r) + d + u + v;
    assert s[0..|s|] == s;
    FourPieces(s, 0, p + q + r, d, u, v);
    var t := s[0..|p + q + r|];
    assert t == p + q + r;
    assert s[..|p|] == t[..|p|] && s[|p| + |q|..|p| + |q| + |r|] == t[|p| + |q|..|p| + |q| + |r|];
  }

  lemma SignContinues(b: bytes, l: Layout, checksum: bytes, size: nat, certificate: bytes)
    requires l.checksum + 4 <= l.dir && l.dir + 8 <= |b| < Pow256(4) && |checksum| == 4
    ensures var s := Sign(b, l, checksum, size, certificate);
            Continues(s, b, l) && Get(s, l.dir, 4) == Some(|b|) && |s| == |b| + |certificate|
  {
    hide Le, UnLe, Pow256, LeftOut;
    UnLeLe(|b|, 4);
    var s := Sign(b, l, checksum, size, certificate);
    var entry := Le(|b|, 4) + Le(size, 4);
    SixParts(b[..l.checksum], checksum, b[l.checksum + 4..l.dir], entry, b[l.dir + 8..], certificate);
    SameParts(s, b, l, |b|);
    assert s[l.dir..l.dir + 4] == s[l.dir..l.dir + 8][..4] == Le(|b|, 4);
  }

  /** A signed image has the covered bytes of the unsigned one. */
  lemma SigningInvariant(b: bytes, tiling: seq<Piece>, to: nat, checksum: bytes, size: nat, certificate: bytes)
    requires Tiled(b, tiling, to) && TableApart(b) && Limit(b, ReadLayout(b).value) == |b| < Pow256(4) && |checksum| == 4
    ensures var l := ReadLayout(b).value;
            && l.checksum + 4 <= l.dir && l.dir + 8 <= |b|
            && Covered(Sign(b, l, checksum, size, certificate)) == Covered(b)
  {
    hide ReadLayout, Covered, Tiles, TableApart, Sign, Continues;
    CoveredIs(b, tiling, to);
    var l := ReadLayout(b).value;
    SignContinues(b, l, checksum, size, certificate);
    var s := Sign(b, l, checksum, size, certificate);
    SameLayout(s, b);
    SigningKeeps(s, b, tiling, to);
  }
}
