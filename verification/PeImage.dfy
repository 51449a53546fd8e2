/** The bytes a signature covers, read off the bytes of a PE image (Microsoft PE format, sections "Optional Header" and
    "Section Table"), without the functions that parse it. */
module PeImage {
  import opened Bytes
  import opened Sorting
  import opened Authenticode

  /** What the headers of an image say: where they start, the magic of the optional header, how long all headers are, where the
      certificate table lies, and the sections in the order of their headers. */
  datatype Headers = Headers(pe: nat, magic: nat, size: nat, cert: nat, sections: seq<Piece>)

  /** The entry of the security directory behind the optional header of a 64-bit or of a 32-bit image. */
  function SecurityDir(x: Headers): nat {
    if x.magic == 0x020B then x.pe + 168 else x.pe + 152
  }

  /** The bytes "MZ", the offset of "PE" and two zeros, and behind that the fields. */
  predicate Says(b: bytes, x: Headers) {
    && |b| >= 0x40 && b[0] == 0x4D && b[1] == 0x5A
    && x.pe == Low4(b, 0x3C) && SecurityDir(x) + 4 <= |b|
    && b[x.pe] == 0x50 && b[x.pe + 1] == 0x45 && b[x.pe + 2] == 0 && b[x.pe + 3] == 0
    && x.magic == Low2(b, x.pe + 24)
    && x.size == Low4(b, x.pe + 84)
    && x.cert == Low4(b, SecurityDir(x))
    && |x.sections| == Low2(b, x.pe + 6)
    && SectionTable(b, x.pe + 24 + Low2(b, x.pe + 20), x.sections)
  }

  /** Headers of 40 bytes, with the size of the contents at 16 and their place at 20. */
  predicate SectionTable(b: bytes, at: nat, sections: seq<Piece>) {
    forall i | 0 <= i < |sections| :: SectionHeader(b, at + 40 * i, sections[i])
  }

  predicate SectionHeader(b: bytes, at: nat, p: Piece) {
    at + 24 <= |b| && p.size == Low4(b, at + 16) && p.pointer == Low4(b, at + 20)
  }

  /** The sections that have contents. */
  function Filled(sections: seq<Piece>): seq<Piece> {
    if sections == [] then []
    else (if sections[0].size > 0 then [sections[0]] else []) + Filled(sections[1..])
  }

  lemma {:induction false} SectionsRead(b: bytes, at: nat, sections: seq<Piece>, i: nat)
    requires i <= |sections| && SectionTable(b, at, sections)
    ensures ReadSections(b, at, |sections|, i) == Some(Filled(sections[i..]))
    decreases |sections| - i
  {
    hide Get, Low4;
    if i < |sections| {
      assert SectionHeader(b, at + 40 * i, sections[i]);
      GetIs(b, at + 40 * i + 16);
      GetIs(b, at + 40 * i + 20);
      SectionsRead(b, at, sections, i + 1);
      assert sections[i..][1..] == sections[i + 1..];
    }
  }

  lemma OffsetRead(b: bytes, x: Headers)
    requires Says(b, x)
    ensures PeOffset(b) == Some(x.pe)
  {
    hide Get, SectionTable;
    GetIs(b, 0);
    GetIs(b, 0x3C);
    GetIs(b, x.pe);
  }

  /** What is read of an image is what its bytes say. */
  lemma LayoutIs(b: bytes, x: Headers)
    requires Says(b, x)
    ensures ReadLayout(b) == Some(Layout(x.pe + 88, SecurityDir(x), x.size, x.cert, Filled(x.sections)))
  {
    hide Get, PeOffset, SectionTable, Low4, Low2, ReadSections;
    OffsetRead(b, x);
    GetIs(b, x.pe + 6);
    GetIs(b, x.pe + 20);
    GetIs(b, x.pe + 24);
    GetIs(b, x.pe + 84);
    GetIs(b, SecurityDir(x));
    SectionsRead(b, x.pe + 24 + Low2(b, x.pe + 20), x.sections, 0);
    assert x.sections[0..] == x.sections;
  }

  // ----- nothing else is read

  lemma {:induction false} SectionsSaid(b: bytes, at: nat, n: nat, i: nat) returns (sections: seq<Piece>)
    requires i <= n && ReadSections(b, at, n, i).Some?
    ensures |sections| == n - i && SectionTable(b, at + 40 * i, sections)
    decreases n - i
  {
    hide Get, Low4;
    if i == n {
      sections := [];
    } else {
      GetIs(b, at + 40 * i + 16);
      GetIs(b, at + 40 * i + 20);
      var rest := SectionsSaid(b, at, n, i + 1);
      var p := Piece(Low4(b, at + 40 * i + 20), Low4(b, at + 40 * i + 16));
      sections := [p] + rest;
      forall j | 0 <= j < |sections| ensures SectionHeader(b, at + 40 * i + 40 * j, sections[j]) {
        if j > 0 {
          assert SectionHeader(b, at + 40 * (i + 1) + 40 * (j - 1), rest[j - 1]);
        }
      }
    }
  }

  lemma OffsetSaid(b: bytes)
    requires PeOffset(b).Some?
    ensures |b| >= 0x40 && b[0] == 0x4D && b[1] == 0x5A
    ensures var pe := PeOffset(b).value;
            pe == Low4(b, 0x3C) && pe + 4 <= |b| && b[pe] == 0x50 && b[pe + 1] == 0x45 && b[pe + 2] == 0 && b[pe + 3] == 0
  {
    hide Get;
    GetIs(b, 0);
    GetIs(b, 0x3C);
    GetIs(b, PeOffset(b).value);
  }

  /** Whatever is covered by a signature is an image that says so. */
  lemma CoveredSays(b: bytes) returns (x: Headers)
    requires Covered(b).Some?
    ensures Says(b, x)
  {
    hide Get, PeOffset, SectionTable, Low4, ReadSections, Assemble;
    OffsetSaid(b);
    var pe := PeOffset(b).value;
    GetIs(b, pe + 6);
    GetIs(b, pe + 20);
    GetIs(b, pe + 24);
    GetIs(b, pe + 84);
    var magic := Low2(b, pe + 24);
    var dir := if magic == 0x020B then pe + 168 else pe + 152;
    GetIs(b, dir);
    var sections := SectionsSaid(b, pe + 24 + Low2(b, pe + 20), Low2(b, pe + 6), 0);
    x := Headers(pe, magic, Low4(b, pe + 84), Low4(b, dir), sections);
  }

  // ----- images whose sections tile the file

  /** The sections with contents are, in some order, `tiling`: one behind the other from the end of the headers to `to`. */
  ghost predicate TiledBy(x: Headers, tiling: seq<Piece>, to: nat) {
    SecurityDir(x) + 8 <= x.size && multiset(Filled(x.sections)) == multiset(tiling) && Tiles(tiling, x.size, to)
  }

  /** The signed part of a file ends at its certificate table, if it has one. */
  function SignedEnd(b: bytes, x: Headers): nat {
    if 0 < x.cert < |b| then x.cert else |b|
  }

  /** A signature covers the file up to its certificate table, but for the four bytes of the checksum, 88 behind the offset of
      the headers, and the eight bytes of the security directory: 168 behind it in a 64-bit image, 152 in a 32-bit image. */
  lemma ImageCovered(b: bytes, x: Headers, tiling: seq<Piece>, to: nat)
    requires Says(b, x) && TiledBy(x, tiling, to) && to <= SignedEnd(b, x)
    ensures var dir := if x.magic == 0x020B then x.pe + 168 else x.pe + 152;
            && dir + 8 <= SignedEnd(b, x) <= |b|
            && Covered(b) == Some(b[..x.pe + 88] + b[x.pe + 92..dir] + b[dir + 8..SignedEnd(b, x)])
  {
    hide ReadLayout, Says, Filled, Tiles, Assemble, SectionTable, Covered;
    LayoutIs(b, x);
    CoveredIs(b, tiling, to);
  }
}
