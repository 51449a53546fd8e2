/** The first runtime measurement register of a TD, as rtmr0.py and `tdx_measure` of measure.js predict it. */
module Rtmr0 {
  import opened Bytes
  import opened Doubles
  import opened Hashing
  import opened GuidTable
  import opened Tdvf
  import opened Acceptor
  import opened TdHob
  import opened TdHobLayout
  import opened TdHobNumbers

  const EFI_GLOBAL_VARIABLE: bytes :=
    [0x61, 0xdf, 0xe4, 0x8b, 0xca, 0x93, 0xd2, 0x11, 0xaa, 0x0d, 0x00, 0xe0, 0x98, 0x03, 0x2b, 0x8c]
  const EFI_IMAGE_SECURITY: bytes :=
    [0xcb, 0xb2, 0x19, 0xd7, 0x3a, 0x3d, 0x96, 0x45, 0xa3, 0xbc, 0xda, 0xd0, 0x0e, 0x67, 0x65, 0x6f]
  const QEMU: bytes := [0x51, 0x45, 0x4d, 0x55]
  const INTERFACE_VERSION: bytes := [3, 0, 0, 0]
  const SEPARATOR: bytes := [0, 0, 0, 0]

  // ----- EFI variables

  type Unit = n: nat | n < 0x1_0000

  /** The UTF-16 units of one character: one, or a surrogate pair. */
  function UnitsOf(c: char): (u: seq<Unit>)
    ensures |u| > 0
  {
    var code := c as int;
    if code < 0x1_0000 then [code]
    else [0xD800 + ((code - 0x1_0000) / 0x400) % 0x400, 0xDC00 + (code - 0x1_0000) % 0x400]
  }

  function Units(s: string): seq<Unit> {
    if s == "" then [] else UnitsOf(s[0]) + Units(s[1..])
  }

  /** One unit is the code point itself; a pair holds the twenty bits above 0x10000, ten in each. */
  lemma UnitsSpelled(c: char)
    ensures var u := UnitsOf(c);
            && (c as int < 0x1_0000 ==> u == [c as int])
            && (c as int >= 0x1_0000 ==>
                  && |u| == 2 && 0xD800 <= u[0] < 0xDC00 && 0xDC00 <= u[1] < 0xE000
                  && c as int == 0x1_0000 + 0x400 * (u[0] as int - 0xD800) + (u[1] as int - 0xDC00))
  {
  }

  /** Two bytes for each unit. */
  function Utf16(units: seq<Unit>): (b: bytes)
    ensures |b| == 2 * |units|
  {
    if units == [] then [] else Utf16(units[..|units| - 1]) + Le(units[|units| - 1], 2)
  }

  /** GUID, length of the name in units, length of the data, name, data. */
  function Variable(guid: bytes, name: string, data: bytes): bytes {
    guid + Le(|Units(name)|, 8) + Le(|data|, 8) + Utf16(Units(name)) + data
  }

  lemma UnitBytes(code: Unit)
    ensures Le(code, 2) == [code % 0x100] + [(code / 0x100) % 0x100]
  {
    assert Le(code / 0x100, 1) == [(code / 0x100) % 0x100] + Le(code / 0x100 / 0x100, 0);
  }

  lemma Utf16Step(units: seq<Unit>, i: nat)
    requires i < |units|
    ensures Utf16(units[..i + 1]) == Utf16(units[..i]) + Le(units[i], 2)
  {
    hide Le;
    assert units[..i + 1][..i] == units[..i];
  }

  /** measure.js, whose strings are sequences of units. */
  method EncodeUtf16LE(str: seq<Unit>) returns (b: bytes)
    ensures b == Utf16(str)
  {
    hide Le, Utf16;
    var buf := new byte[|str| * 2](_ => 0);
    assert Utf16(str[..0]) == [] by { NoUnits(); }
    for i := 0 to |str|
      invariant buf[..2 * i] == Utf16(str[..i])
    {
      var code := str[i];
      ghost var before := buf[..2 * i];
      buf[i * 2] := code % 0x100;
      assert buf[..2 * i] == before;
      buf[i * 2 + 1] := (code / 0x100) % 0x100;
      assert buf[..2 * (i + 1)] == before + ([buf[i * 2]] + [buf[i * 2 + 1]]);
      UnitBytes(code);
      Utf16Step(str, i);
    }
    assert str[..|str|] == str;
    assert buf[..] == buf[..2 * |str|];
    b := buf[..];
  }

  lemma NoUnits()
    ensures forall units: seq<Unit> :: units[..0] == []
    ensures Utf16([]) == []
  {
  }

  /** measure.js: fields written into a buffer of the final size. */
  method EfiVariable(guid: bytes, name: string, data: bytes) returns (r: bytes)
    requires |guid| == 16
    ensures r == Variable(guid, name, data)
  {
    var units := Units(name);
    var nameBuf := EncodeUtf16LE(units);
    hide Le, Utf16, Units;
    var result := new byte[16 + 8 + 8 + |nameBuf| + |data|](_ => 0);
    var _ := Store(result, 0, guid);
    assert result[..16] == guid;
    var _ := Store(result, 16, Le(|units|, 8));
    assert result[..24] == guid + Le(|units|, 8);
    var _ := Store(result, 24, Le(|data|, 8));
    assert result[..32] == guid + Le(|units|, 8) + Le(|data|, 8);
    var _ := Store(result, 32, nameBuf);
    assert result[..32 + |nameBuf|] == guid + Le(|units|, 8) + Le(|data|, 8) + nameBuf;
    var _ := Store(result, 32 + |nameBuf|, data);
    assert result[..] == Variable(guid, name, data);
    r := result[..];
  }

  lemma Utf16Last(units: seq<Unit>)
    requires units != []
    ensures var n := |units| - 1; Utf16(units) == Utf16(units[..n]) + Le(units[n], 2)
  {
    hide Le;
  }

  lemma UnitInjective(a: Unit, b: Unit)
    requires Le(a, 2) == Le(b, 2)
    ensures a == b
  {
    hide Le, Pow256;
    PowValues();
    LeInjective(a, b, 2);
  }

  lemma {:induction false} Utf16Injective(s: seq<Unit>, t: seq<Unit>)
    requires Utf16(s) == Utf16(t)
    ensures s == t
    decreases |s|
  {
    hide Le, Utf16;
    if s != [] {
      var n := |s| - 1;
      assert |t| == |s|;
      Utf16Last(s);
      Utf16Last(t);
      SameCut(Utf16(s[..n]), Le(s[n], 2), Utf16(t[..n]), Le(t[n], 2));
      UnitInjective(s[n], t[n]);
      Utf16Injective(s[..n], t[..n]);
      assert s == s[..n] + [s[n]] && t == t[..n] + [t[n]];
    }
  }

  /** The first unit says whether a second one belongs to it. */
  lemma UnitsOfInjective(c: char, x: seq<Unit>, d: char, y: seq<Unit>)
    requires UnitsOf(c) + x == UnitsOf(d) + y
    ensures c == d && x == y
  {
    var u, v := UnitsOf(c), UnitsOf(d);
    assert (u + x)[0] == u[0] && (v + y)[0] == v[0];
    FirstUnit(c);
    FirstUnit(d);
    SameCut(u, x, v, y);
    CharOfUnits(c);
    CharOfUnits(d);
  }

  lemma FirstUnit(c: char)
    ensures var u := UnitsOf(c); |u| == if 0xD800 <= u[0] < 0xDC00 then 2 else 1
  {
  }

  /** What a surrogate pair stands for. */
  function PairOf(high: int, low: int): int {
    0x1_0000 + 0x400 * (high - 0xD800) + (low - 0xDC00)
  }

  lemma CharOfUnits(c: char)
    ensures var u := UnitsOf(c);
            && (|u| == 1 ==> c as int == u[0])
            && (|u| != 1 ==> |u| == 2 && c as int == PairOf(u[0], u[1]))
  {
    var code := c as int;
    if code >= 0x1_0000 {
      assert code - 0x1_0000 == 0x400 * ((code - 0x1_0000) / 0x400) + (code - 0x1_0000) % 0x400;
    }
  }

  lemma {:induction false} UnitsInjective(s: string, t: string)
    requires Units(s) == Units(t)
    ensures s == t
  {
    hide UnitsOf;
    if s != "" && t != "" {
      UnitsOfInjective(s[0], Units(s[1..]), t[0], Units(t[1..]));
      UnitsInjective(s[1..], t[1..]);
      assert s == [s[0]] + s[1..] && t == [t[0]] + t[1..];
    }
  }

  /** Different variables are measured as different bytes. */
  lemma VariableInjective(guid: bytes, name: string, data: bytes, guid': bytes, name': string, data': bytes)
    requires |guid| == |guid'| == 16
    requires |Units(name)| < Pow256(8) && |data| < Pow256(8) && |Units(name')| < Pow256(8) && |data'| < Pow256(8)
    requires Variable(guid, name, data) == Variable(guid', name', data')
    ensures guid == guid' && name == name' && data == data'
  {
    hide Le, Utf16, Pow256, Units;
    var (a, b, c, d) := (Le(|Units(name)|, 8), Le(|data|, 8), Utf16(Units(name)), data);
    var (a', b', c', d') := (Le(|Units(name')|, 8), Le(|data'|, 8), Utf16(Units(name')), data');
    Regroup(guid, a, b, c, d);
    Regroup(guid', a', b', c', d');
    SameCut(guid, a + (b + (c + d)), guid', a' + (b' + (c' + d')));
    SameCut(a, b + (c + d), a', b' + (c' + d'));
    SameCut(b, c + d, b', c' + d');
    LeInjective(|Units(name)|, |Units(name')|, 8);
    SameCut(c, d, c', d');
    Utf16Injective(Units(name), Units(name'));
    UnitsInjective(name, name');
  }

  lemma Regroup(a: bytes, b: bytes, c: bytes, d: bytes, e: bytes)
    ensures a + b + c + d + e == a + (b + (c + (d + e)))
  {
  }

  method MeasureVariables() returns (secureBoot: bytes, pk: bytes, kek: bytes, db: bytes, dbx: bytes)
    ensures secureBoot == Variable(EFI_GLOBAL_VARIABLE, "SecureBoot", [0])
    ensures pk == Variable(EFI_GLOBAL_VARIABLE, "PK", []) && kek == Variable(EFI_GLOBAL_VARIABLE, "KEK", [])
    ensures db == Variable(EFI_IMAGE_SECURITY, "db", []) && dbx == Variable(EFI_IMAGE_SECURITY, "dbx", [])
  {
    hide Variable;
    secureBoot := EfiVariable(EFI_GLOBAL_VARIABLE, "SecureBoot", [0]);
    pk := EfiVariable(EFI_GLOBAL_VARIABLE, "PK", []);
    kek := EfiVariable(EFI_GLOBAL_VARIABLE, "KEK", []);
    db := EfiVariable(EFI_IMAGE_SECURITY, "db", []);
    dbx := EfiVariable(EFI_IMAGE_SECURITY, "dbx", []);
  }

  // ----- the measured variables, byte by byte: GUID, name length, data length, name, data

  const SECURE_BOOT_EVENT: bytes :=
    EFI_GLOBAL_VARIABLE + [10, 0, 0, 0, 0, 0, 0, 0] + [1, 0, 0, 0, 0, 0, 0, 0]
    + [0x53, 0, 0x65, 0, 0x63, 0, 0x75, 0, 0x72, 0, 0x65, 0, 0x42, 0, 0x6f, 0, 0x6f, 0, 0x74, 0] + [0]

  const PK_EVENT: bytes :=
    EFI_GLOBAL_VARIABLE + [2, 0, 0, 0, 0, 0, 0, 0] + [0, 0, 0, 0, 0, 0, 0, 0]
    + [0x50, 0, 0x4b, 0] + []

  const KEK_EVENT: bytes :=
    EFI_GLOBAL_VARIABLE + [3, 0, 0, 0, 0, 0, 0, 0] + [0, 0, 0, 0, 0, 0, 0, 0]
    + [0x4b, 0, 0x45, 0, 0x4b, 0] + []

  const DB_EVENT: bytes :=
    EFI_IMAGE_SECURITY + [2, 0, 0, 0, 0, 0, 0, 0] + [0, 0, 0, 0, 0, 0, 0, 0]
    + [0x64, 0, 0x62, 0] + []

  const DBX_EVENT: bytes :=
    EFI_IMAGE_SECURITY + [3, 0, 0, 0, 0, 0, 0, 0] + [0, 0, 0, 0, 0, 0, 0, 0]
    + [0x64, 0, 0x62, 0, 0x78, 0] + []

  lemma LowByte(n: byte)
    ensures Le(n, 8) == [n, 0, 0, 0, 0, 0, 0, 0] && Le(n, 2) == [n, 0]
  {
    hide Le;
    LeByte(n, 8);
    LeByte(n, 2);
    assert Zeros(7) == [0, 0, 0, 0, 0, 0, 0] && Zeros(1) == [0];
  }

  predicate Latin(name: string) {
    forall i | 0 <= i < |name| :: name[i] as int < 0x100
  }

  lemma {:induction false} LatinUnits(name: string)
    requires Latin(name)
    ensures |Units(name)| == |name| && forall i | 0 <= i < |name| :: Units(name)[i] == name[i] as int
  {
    if name != "" {
      LatinUnits(name[1..]);
    }
  }

  lemma {:induction false} UnitsBytes(units: seq<Unit>)
    requires forall i | 0 <= i < |units| :: units[i] < 0x100
    ensures forall i | 0 <= i < |units| :: Utf16(units)[2 * i] == units[i] && Utf16(units)[2 * i + 1] == 0
  {
    hide Le;
    var n := |units| - 1;
    if units != [] {
      UnitsBytes(units[..n]);
      LowByte(units[n]);
    }
  }

  /** Names of one-byte characters are written as these bytes and zeros in turn, behind the lengths in eight bytes. */
  lemma VariableIs(guid: bytes, name: string, data: bytes)
    requires Latin(name) && |name| < 0x100 && |data| < 0x100
    ensures var wide := Utf16(Units(name));
            && Variable(guid, name, data) ==
                 guid + [|name|, 0, 0, 0, 0, 0, 0, 0] + [|data|, 0, 0, 0, 0, 0, 0, 0] + wide + data
            && |wide| == 2 * |name|
            && forall i | 0 <= i < |name| :: wide[2 * i] == name[i] as int && wide[2 * i + 1] == 0
  {
    hide Le, Utf16, Units;
    LatinUnits(name);
    UnitsBytes(Units(name));
    LowByte(|name|);
    LowByte(|data|);
  }

  lemma SecureBootIs()
    ensures Variable(EFI_GLOBAL_VARIABLE, "SecureBoot", [0]) == SECURE_BOOT_EVENT
  {
    hide Le, Utf16, Units, Zeros;
    VariableIs(EFI_GLOBAL_VARIABLE, "SecureBoot", [0]);
    var name := Utf16(Units("SecureBoot"));
    assert |name| == 20;
    assert name[2 * 0] == 0x53 && name[2 * 0 + 1] == 0 && name[2 * 1] == 0x65 && name[2 * 1 + 1] == 0 && name[2 * 2] == 0x63 && name[2 * 2 + 1] == 0 && name[2 * 3] == 0x75 && name[2 * 3 + 1] == 0 && name[2 * 4] == 0x72 && name[2 * 4 + 1] == 0 && name[2 * 5] == 0x65 && name[2 * 5 + 1] == 0 && name[2 * 6] == 0x42 && name[2 * 6 + 1] == 0 && name[2 * 7] == 0x6f && name[2 * 7 + 1] == 0 && name[2 * 8] == 0x6f && name[2 * 8 + 1] == 0 && name[2 * 9] == 0x74 && name[2 * 9 + 1] == 0;
    assert name == [0x53, 0, 0x65, 0, 0x63, 0, 0x75, 0, 0x72, 0, 0x65, 0, 0x42, 0, 0x6f, 0, 0x6f, 0, 0x74, 0];
  }

  lemma PkIs()
    ensures Variable(EFI_GLOBAL_VARIABLE, "PK", []) == PK_EVENT
  {
    hide Le, Utf16, Units, Zeros;
    VariableIs(EFI_GLOBAL_VARIABLE, "PK", []);
    var name := Utf16(Units("PK"));
    assert |name| == 4;
    assert name[2 * 0] == 0x50 && name[2 * 0 + 1] == 0 && name[2 * 1] == 0x4b && name[2 * 1 + 1] == 0;
    assert name == [0x50, 0, 0x4b, 0];
  }

  lemma KekIs()
    ensures Variable(EFI_GLOBAL_VARIABLE, "KEK", []) == KEK_EVENT
  {
    hide Le, Utf16, Units, Zeros;
    VariableIs(EFI_GLOBAL_VARIABLE, "KEK", []);
    var name := Utf16(Units("KEK"));
    assert |name| == 6;
    assert name[2 * 0] == 0x4b && name[2 * 0 + 1] == 0 && name[2 * 1] == 0x45 && name[2 * 1 + 1] == 0 && name[2 * 2] == 0x4b && name[2 * 2 + 1] == 0;
    assert name == [0x4b, 0, 0x45, 0, 0x4b, 0];
  }

  lemma DbIs()
    ensures Variable(EFI_IMAGE_SECURITY, "db", []) == DB_EVENT
  {
    hide Le, Utf16, Units, Zeros;
    VariableIs(EFI_IMAGE_SECURITY, "db", []);
    var name := Utf16(Units("db"));
    assert |name| == 4;
    assert name[2 * 0] == 0x64 && name[2 * 0 + 1] == 0 && name[2 * 1] == 0x62 && name[2 * 1 + 1] == 0;
    assert name == [0x64, 0, 0x62, 0];
  }

  lemma DbxIs()
    ensures Variable(EFI_IMAGE_SECURITY, "dbx", []) == DBX_EVENT
  {
    hide Le, Utf16, Units, Zeros;
    VariableIs(EFI_IMAGE_SECURITY, "dbx", []);
    var name := Utf16(Units("dbx"));
    assert |name| == 6;
    assert name[2 * 0] == 0x64 && name[2 * 0 + 1] == 0 && name[2 * 1] == 0x62 && name[2 * 1 + 1] == 0 && name[2 * 2] == 0x78 && name[2 * 2 + 1] == 0;
    assert name == [0x64, 0, 0x62, 0, 0x78, 0];
  }

  // ----- the configuration volume

  function FindCfv(sections: seq<Section>): Option<Section> {
    if sections == [] then None
    else if sections[0].secType == TD_CFV then Some(sections[0])
    else FindCfv(sections[1..])
  }

  /** rtmr0.py refuses a volume that does not lie inside the image. */
  function PyCfv(sections: seq<Section>, fw: bytes): Option<bytes> {
    var s :- FindCfv(sections);
    if s.dataOffset + s.rawDataSize > |fw| then None else Some(fw[s.dataOffset..s.dataOffset + s.rawDataSize])
  }

  /** measure.js cuts it to the image. */
  function JsCfv(sections: seq<Section>, fw: bytes): Option<bytes> {
    var s :- FindCfv(sections);
    Some(Slice(fw, s.dataOffset, s.dataOffset + s.rawDataSize))
  }

  /** Its place are numbers of 32 bits, which are not rounded. */
  lemma {:induction false} NumbersFind(sections: seq<Section>)
    ensures FindCfv(Numbers(sections)) == if FindCfv(sections).Some? then Some(Number(FindCfv(sections).value)) else None
  {
    hide Double;
    if sections != [] {
      NumbersFind(sections[1..]);
      assert Numbers(sections)[1..] == Numbers(sections[1..]);
    }
  }

  /** The configuration volume is the image contents of the first section of type 1, which has to lie inside the image for
      rtmr0.py and is cut to the image by measure.js. Without such a section both fail. */
  lemma CfvIs(sections: seq<Section>, fw: bytes, i: nat)
    requires i <= |sections| && forall j | 0 <= j < i :: sections[j].secType != 1
    requires i < |sections| ==> sections[i].secType == 1
    ensures i == |sections| ==> PyCfv(sections, fw) == JsCfv(sections, fw) == None
    ensures i < |sections| ==>
              var from, to := sections[i].dataOffset, sections[i].dataOffset + sections[i].rawDataSize;
              && PyCfv(sections, fw) == (if to <= |fw| then Some(fw[from..to]) else None)
              && JsCfv(sections, fw) == Some(if to <= |fw| then fw[from..to] else if from <= |fw| then fw[from..] else [])
  {
    hide FindCfv;
    FirstCfv(sections, i);
    if i < |sections| {
      CutIs(fw, sections[i].dataOffset, sections[i].dataOffset + sections[i].rawDataSize);
    }
  }

  lemma CutIs(b: bytes, from: nat, to: nat)
    requires from <= to
    ensures Slice(b, from, to) == if to <= |b| then b[from..to] else if from <= |b| then b[from..] else []
  {
    assert from == |b| ==> b[from..] == [];
    assert from <= |b| ==> b[from..|b|] == b[from..];
  }

  lemma {:induction false} FirstCfv(sections: seq<Section>, i: nat)
    requires i <= |sections| && forall j | 0 <= j < i :: sections[j].secType != 1
    requires i < |sections| ==> sections[i].secType == 1
    ensures FindCfv(sections) == if i < |sections| then Some(sections[i]) else None
    decreases i
  {
    if i > 0 {
      FirstCfv(sections[1..], i - 1);
    }
  }

  lemma NumbersCfv(sections: seq<Section>, fw: bytes)
    ensures JsCfv(Numbers(sections), fw) == JsCfv(sections, fw)
  {
    hide FindCfv, Numbers, Double;
    NumbersFind(sections);
  }

  method MeasureCfv(sections: seq<Section>, fw: bytes) returns (r: Option<bytes>)
    ensures r == PyCfv(sections, fw)
  {
    for i := 0 to |sections|
      invariant FindCfv(sections) == FindCfv(sections[i..])
    {
      assert sections[i..][1..] == sections[i + 1..];
      var s := sections[i];
      if s.secType == TD_CFV {
        var start := s.dataOffset;
        var end := start + s.rawDataSize;
        if end > |fw| { return None; }
        return Some(fw[start..end]);
      }
    }
    r := None;
  }

  // ----- the register

  /** What is measured behind the hand-off blocks and the configuration volume. */
  function PlatformEvents(): (r: seq<bytes>)
    ensures |r| == 8
  {
    hide Variable;
    [QEMU, [3, 0, 0, 0], Variable(EFI_GLOBAL_VARIABLE, "SecureBoot", [0]), Variable(EFI_GLOBAL_VARIABLE, "PK", []),
     Variable(EFI_GLOBAL_VARIABLE, "KEK", []), Variable(EFI_IMAGE_SECURITY, "db", []),
     Variable(EFI_IMAGE_SECURITY, "dbx", []), Zeros(4)]
  }

  function Digests(h: Hash, parts: seq<bytes>): (r: seq<bytes>)
    ensures |r| == |parts| && forall i | 0 <= i < |parts| :: r[i] == h(parts[i])
  {
    seq(|parts|, i requires 0 <= i < |parts| => h(parts[i]))
  }

  function RegisterDigests(h: Hash, hob: bytes, cfv: bytes): (r: seq<bytes>)
    ensures |r| == 10
  {
    Digests(h, [hob, cfv] + PlatformEvents())
  }

  function Rtmr0(h: Hash, hob: bytes, cfv: bytes): bytes {
    Extended(h, Zeros(DIGEST_SIZE), RegisterDigests(h, hob, cfv))
  }

  function PyRtmr0(h: Hash, fw: bytes, memory: nat): Option<bytes> {
    var sections :- ParseRtmr(fw);
    var hob :- PyHob(sections, memory);
    var cfv :- PyCfv(sections, fw);
    Some(Rtmr0(h, hob, cfv))
  }

  function JsRtmr0(h: Hash, fw: bytes, memory: nat): Option<bytes> {
    hide JsHob;
    var sections :- ParseJs(fw);
    var cfv :- JsCfv(sections, fw);
    Some(Rtmr0(h, JsHob(sections, memory), cfv))
  }

  lemma ExtendedMore(h: Hash, start: bytes, parts: seq<bytes>, part: bytes)
    ensures Extended(h, start, Digests(h, parts + [part])) == h(Extended(h, start, Digests(h, parts)) + h(part))
  {
    assert Digests(h, parts + [part]) == Digests(h, parts) + [h(part)];
    ExtendedLast(h, start, Digests(h, parts), h(part));
  }

  lemma NothingExtended(h: Hash, start: bytes)
    ensures Extended(h, start, Digests(h, [])) == start
  {
  }

  lemma TenParts(a: bytes, b: bytes, c: bytes, d: bytes, e: bytes, f: bytes, g: bytes, i: bytes, j: bytes, k: bytes)
    ensures [] + [a] + [b] + [c] + [d] + [e] + [f] + [g] + [i] + [j] + [k] == [a, b] + [c, d, e, f, g, i, j, k]
  {
  }

  /** The register holds what `parts` extended it to. */
  ghost predicate Measured(h: Hash, pcr: bytes, parts: seq<bytes>) {
    pcr == Extended(h, Zeros(DIGEST_SIZE), Digests(h, parts))
  }

  /** rtmr0.py: `extend` hashes the concatenation. */
  method PyExtend(h: Hash, pcr: bytes, part: bytes, ghost parts: seq<bytes>) returns (r: bytes, ghost parts': seq<bytes>)
    requires Measured(h, pcr, parts)
    ensures r == h(pcr + h(part)) && Measured(h, r, parts') && parts' == parts + [part]
  {
    ExtendedMore(h, Zeros(DIGEST_SIZE), parts, part);
    r := h(pcr + h(part));
    parts' := parts + [part];
  }

  /** measure.js: `extend` copies both into one buffer first. */
  method JsExtend(h: Hash, pcr: bytes, part: bytes, ghost parts: seq<bytes>) returns (r: bytes, ghost parts': seq<bytes>)
    requires Measured(h, pcr, parts)
    ensures r == h(pcr + h(part)) && Measured(h, r, parts') && parts' == parts + [part]
  {
    ExtendedMore(h, Zeros(DIGEST_SIZE), parts, part);
    hide Extended, Digests;
    var value := h(part);
    var buf := new byte[|pcr| + |value|](_ => 0);
    var _ := Store(buf, 0, pcr);
    assert buf[..|pcr|] == pcr;
    var _ := Store(buf, |pcr|, value);
    assert buf[..] == pcr + value;
    r := h(buf[..]);
    parts' := parts + [part];
  }

  method PyVariable(guid: bytes, name: string, data: bytes) returns (r: bytes)
    ensures r == Variable(guid, name, data)
  {
    hide Le, Utf16, Units;
    var encoded := Utf16(Units(name));
    r := guid + Le(|encoded| / 2, 8) + Le(|data|, 8) + encoded + data;
  }

  /** The whole of rtmr0.py behind the reading of its arguments. */
  method PyMain(h: Hash, fw: bytes, memory: nat) returns (r: Option<bytes>, ghost sections: seq<Section>, ghost hob: bytes, ghost cfv: bytes)
    ensures r == PyRtmr0(h, fw, memory)
    ensures r.Some? ==>
              ParseRtmr(fw) == Some(sections) && PyHob(sections, memory) == Some(hob) && PyCfv(sections, fw) == Some(cfv)
    ensures r.Some? ==>
              Measured(h, r.value, [hob, cfv, QEMU, INTERFACE_VERSION, SECURE_BOOT_EVENT, PK_EVENT, KEK_EVENT, DB_EVENT, DBX_EVENT,
                                    SEPARATOR])
  {
    hide Variable, Extended, Digests, Zeros, ParseRtmr, PyHob, PyCfv, Measured;
    var parsed := ParseSectionsRtmr(fw);
    if parsed.None? { return None, [], [], []; }
    ghost var parts: seq<bytes> := [];
    var pcr := Zeros(48);
    NothingMeasured(h);
    sections := parsed.value;
    var list := MeasureTdHob(parsed.value, memory);
    if list.None? { return None, [], [], []; }
    pcr, parts := PyExtend(h, pcr, list.value, parts);
    var volume := MeasureCfv(parsed.value, fw);
    if volume.None? { return None, [], [], []; }
    pcr, parts := PyExtend(h, pcr, volume.value, parts);
    pcr, parts := PyExtend(h, pcr, QEMU, parts);
    pcr, parts := PyExtend(h, pcr, [3, 0, 0, 0], parts);
    var v := PyVariable(EFI_GLOBAL_VARIABLE, "SecureBoot", [0]);
    pcr, parts := PyExtend(h, pcr, v, parts);
    v := PyVariable(EFI_GLOBAL_VARIABLE, "PK", []);
    pcr, parts := PyExtend(h, pcr, v, parts);
    v := PyVariable(EFI_GLOBAL_VARIABLE, "KEK", []);
    pcr, parts := PyExtend(h, pcr, v, parts);
    v := PyVariable(EFI_IMAGE_SECURITY, "db", []);
    pcr, parts := PyExtend(h, pcr, v, parts);
    v := PyVariable(EFI_IMAGE_SECURITY, "dbx", []);
    pcr, parts := PyExtend(h, pcr, v, parts);
    pcr, parts := PyExtend(h, pcr, Zeros(4), parts);
    hob, cfv := list.value, volume.value;
    TenParts(hob, cfv, QEMU, [3, 0, 0, 0], Variable(EFI_GLOBAL_VARIABLE, "SecureBoot", [0]),
             Variable(EFI_GLOBAL_VARIABLE, "PK", []), Variable(EFI_GLOBAL_VARIABLE, "KEK", []),
             Variable(EFI_IMAGE_SECURITY, "db", []), Variable(EFI_IMAGE_SECURITY, "dbx", []), Zeros(4));
    MeasuredAll(h, pcr, hob, cfv, parts);
    TenSpelled(hob, cfv);
    r := Some(pcr);
  }

  lemma NothingMeasured(h: Hash)
    ensures Measured(h, Zeros(48), [])
  {
    NothingExtended(h, Zeros(48));
  }

  lemma EventsSpelled()
    ensures Variable(EFI_GLOBAL_VARIABLE, "SecureBoot", [0]) == SECURE_BOOT_EVENT
    ensures Variable(EFI_GLOBAL_VARIABLE, "PK", []) == PK_EVENT && Variable(EFI_GLOBAL_VARIABLE, "KEK", []) == KEK_EVENT
    ensures Variable(EFI_IMAGE_SECURITY, "db", []) == DB_EVENT && Variable(EFI_IMAGE_SECURITY, "dbx", []) == DBX_EVENT
    ensures Zeros(4) == SEPARATOR
  {
    hide Variable;
    SecureBootIs();
    PkIs();
    KekIs();
    DbIs();
    DbxIs();
  }

  lemma TenSpelled(hob: bytes, cfv: bytes)
    ensures [hob, cfv] + PlatformEvents() ==
      [hob, cfv, QEMU, INTERFACE_VERSION, SECURE_BOOT_EVENT, PK_EVENT, KEK_EVENT, DB_EVENT, DBX_EVENT, SEPARATOR]
  {
    hide Variable;
    EventsSpelled();
  }

  /** A register that measured nothing is zero, and one that measured one part more is the hash of the register before it and
      the digest of the part. */
  lemma MeasuredIs(h: Hash, pcr: bytes, before: bytes, parts: seq<bytes>, part: bytes)
    ensures Measured(h, pcr, []) <==> pcr == Zeros(48)
    ensures Measured(h, before, parts) ==> (Measured(h, pcr, parts + [part]) <==> pcr == h(before + h(part)))
  {
    hide Extended, Digests;
    NothingExtended(h, Zeros(48));
    ExtendedMore(h, Zeros(48), parts, part);
  }

  lemma MeasuredAll(h: Hash, pcr: bytes, hob: bytes, cfv: bytes, parts: seq<bytes>)
    requires Measured(h, pcr, parts) && parts == [hob, cfv] + PlatformEvents()
    ensures pcr == Rtmr0(h, hob, cfv)
  {
  }

  /** `ovmf_measure_tdx` and `tdx_measure` of measure.js, as far as the first register goes. */
  method JsMain(h: Hash, fw: bytes, memory: nat) returns (r: Option<bytes>, ghost sections: seq<Section>, ghost hob: bytes, ghost cfv: bytes)
    ensures r == JsRtmr0(h, fw, memory)
    ensures r.Some? ==> ParseJs(fw) == Some(sections) && JsHob(sections, memory) == hob && JsCfv(sections, fw) == Some(cfv)
    ensures r.Some? ==>
              Measured(h, r.value, [hob, cfv, QEMU, INTERFACE_VERSION, SECURE_BOOT_EVENT, PK_EVENT, KEK_EVENT, DB_EVENT, DBX_EVENT,
                                    SEPARATOR])
  {
    hide Variable, Extended, Digests, Zeros, ParseJs, NumbersHob, JsCfv, FindCfv, Measured, Numbers, Double;
    var parsed := ParseSectionsJs(fw);
    if parsed.None? { return None, [], [], []; }
    sections := ParseJs(fw).value;
    NumbersCfv(sections, fw);
    var list := TdxMeasureHob(parsed.value, Double(memory));
    var volume := JsCfv(parsed.value, fw);
    if volume.None? { return None, [], [], []; }
    var secureBoot, pk, kek, db, dbx := MeasureVariables();
    ghost var parts: seq<bytes> := [];
    var rtmr0 := Zeros(48);
    NothingMeasured(h);
    rtmr0, parts := JsExtend(h, rtmr0, list, parts);
    rtmr0, parts := JsExtend(h, rtmr0, volume.value, parts);
    rtmr0, parts := JsExtend(h, rtmr0, QEMU, parts);
    rtmr0, parts := JsExtend(h, rtmr0, [3, 0, 0, 0], parts);
    rtmr0, parts := JsExtend(h, rtmr0, secureBoot, parts);
    rtmr0, parts := JsExtend(h, rtmr0, pk, parts);
    rtmr0, parts := JsExtend(h, rtmr0, kek, parts);
    rtmr0, parts := JsExtend(h, rtmr0, db, parts);
    rtmr0, parts := JsExtend(h, rtmr0, dbx, parts);
    rtmr0, parts := JsExtend(h, rtmr0, Zeros(4), parts);
    hob, cfv := list, volume.value;
    TenParts(hob, cfv, QEMU, [3, 0, 0, 0], Variable(EFI_GLOBAL_VARIABLE, "SecureBoot", [0]),
             Variable(EFI_GLOBAL_VARIABLE, "PK", []), Variable(EFI_GLOBAL_VARIABLE, "KEK", []),
             Variable(EFI_IMAGE_SECURITY, "db", []), Variable(EFI_IMAGE_SECURITY, "dbx", []), Zeros(4));
    MeasuredAll(h, rtmr0, hob, cfv, parts);
    TenSpelled(hob, cfv);
    r := Some(rtmr0);
  }

  // ----- the two predictions agree

  predicate CfvInside(sections: seq<Section>, fw: bytes) {
    var s := FindCfv(sections);
    s.Some? ==> s.value.dataOffset + s.value.rawDataSize <= |fw|
  }

  /** A memory the Python tool can describe: a large one whose last range starts no higher than 2 GiB. */
  predicate Describable(sections: seq<Section>, memory: nat) {
    var ranges := AcceptAll(memory, TakenBy(sections));
    memory >= SPLIT_FROM ==> ranges != [] && ranges[|ranges| - 1].start <= TWO_GIB
  }

  /** The Python tool reads the browser's sections or refuses them. */
  lemma SameSections(front: bytes, entries: seq<Entry>, tail: bytes, k: nat)
    requires |tail| == BYTES_AFTER_TABLE_FOOTER && |Table(entries)| + ENTRY_HEADER < 0x1_0000 && |front| >= 18
    requires OnlyAt(entries, k) && !Spells(front[|front| - 18..])
    requires ParseJs(Image(front, entries, tail)).Some?
    ensures var fw := Image(front, entries, tail);
            var sections := ParseJs(fw).value;
            ParseRtmr(fw) == if AllAligned(sections) then Some(sections) else None
  {
    hide Image, Table, OnlyAt, Spells, AllAligned, AllInside, JsAt, RtmrAt, MrtdAt, MetaOffsetJs, MetaOffsetRtmr, MetaOffsetMrtd;
    var fw := Image(front, entries, tail);
    WalksAgree(front, entries, tail, k);
    ParsersAgree(fw, |fw| - MetaOffsetJs(fw).value);
  }

  /** On every well-formed image for which the browser predicts a register, and for every memory size with a unit, the Python
      tool refuses exactly for a misaligned section, a configuration volume beyond the image, or a hand-off block list it
      cannot build. Otherwise it predicts the browser's register if the end of the list is not rounded away, and measures
      another list if it is. */
  lemma SameRegisterExactly(h: Hash, front: bytes, entries: seq<Entry>, tail: bytes, k: nat, memory: nat, sections: seq<Section>)
    requires |tail| == BYTES_AFTER_TABLE_FOOTER && |Table(entries)| + ENTRY_HEADER < 0x1_0000 && |front| >= 18
    requires OnlyAt(entries, k) && !Spells(front[|front| - 18..]) && Representable(memory)
    requires ParseJs(Image(front, entries, tail)) == Some(sections)
    requires JsRtmr0(h, Image(front, entries, tail), memory).Some?
    ensures var fw := Image(front, entries, tail);
            && (PyRtmr0(h, fw, memory).None? <==>
                  !AllAligned(sections) || !CfvInside(sections, fw) || PyHob(sections, memory).None?)
            && (PyRtmr0(h, fw, memory).Some? ==>
                  && (EndExact(sections, memory) ==> PyRtmr0(h, fw, memory) == JsRtmr0(h, fw, memory))
                  && (!EndExact(sections, memory) ==> PyHob(sections, memory) != Some(JsHob(sections, memory))))
  {
    hide Image, Table, OnlyAt, Spells, AllAligned, JsHob, PyHob, Rtmr0, FindCfv, ParseJs, ParseRtmr, EndExact, Sized, Representable;
    var fw := Image(front, entries, tail);
    SameSections(front, entries, tail, k);
    ParsedSized(fw);
    if AllAligned(sections) && PyHob(sections, memory).Some? {
      SameListExactly(sections, memory);
    }
  }

  /** With disjoint sections inside the memory and a list that ends below 2^56, the Python tool predicts the browser's
      register, or refuses, and it refuses exactly for a misaligned section, a configuration volume beyond the image, or a
      large memory whose last range starts above 2 GiB. */
  lemma PredictionsAgree(h: Hash, front: bytes, entries: seq<Entry>, tail: bytes, k: nat, memory: nat, sections: seq<Section>)
    requires |tail| == BYTES_AFTER_TABLE_FOOTER && |Table(entries)| + ENTRY_HEADER < 0x1_0000 && |front| >= 18
    requires OnlyAt(entries, k) && !Spells(front[|front| - 18..]) && Representable(memory)
    requires ParseJs(Image(front, entries, tail)) == Some(sections)
    requires JsRtmr0(h, Image(front, entries, tail), memory).Some?
    requires DisjointInside(memory, TakenBy(sections))
    requires ListEnd(HobBase(sections), MemoryOf(sections, memory)) < 0x100_0000_0000_0000
    ensures var fw := Image(front, entries, tail);
            PyRtmr0(h, fw, memory) ==
              if AllAligned(sections) && CfvInside(sections, fw) && Describable(sections, memory)
              then JsRtmr0(h, fw, memory) else None
  {
    hide Image, Table, OnlyAt, Spells, AllAligned, AcceptAll, TakenBy, DisjointInside, JsHob, PyHob, MemoryOf;
    hide PyRtmr0, JsRtmr0, HobBase, ListEnd, ParseJs, EndExact, CfvInside, Describable, Representable;
    SameRegisterExactly(h, front, entries, tail, k, memory, sections);
    DescribableBuilds(sections, memory);
    if AllAligned(sections) {
      LowEndExact(sections, memory);
    }
  }

  lemma DescribableBuilds(sections: seq<Section>, memory: nat)
    requires DisjointInside(memory, TakenBy(sections)) && Representable(memory)
    requires ListEnd(HobBase(sections), MemoryOf(sections, memory)) < 0x100_0000_0000_0000
    ensures PyHob(sections, memory).Some? <==> Describable(sections, memory)
  {
    hide AcceptAll, TakenBy, DisjointInside, MemoryOf, HobBase, HobList, PyHob, ListEnd;
    PyBuildsExactly(sections, memory);
  }

  /** Two chains with one register measured the same hand-off blocks and the same configuration volume, or one of three given
      pairs of inputs collides. */
  lemma RegisterDetermines(h: Hash, hob: bytes, cfv: bytes, hob': bytes, cfv': bytes)
    requires Rtmr0(h, hob, cfv) == Rtmr0(h, hob', cfv')
    ensures (hob == hob' && cfv == cfv') || RegisterCollides(h, hob, cfv, hob', cfv')
  {
    hide ChainPair, Extended, PlatformEvents;
    var xs, ys := RegisterDigests(h, hob, cfv), RegisterDigests(h, hob', cfv');
    EqualChains(h, Zeros(48), xs, Zeros(48), ys);
    if xs == ys {
      assert xs[0] == h(hob) && ys[0] == h(hob') && xs[1] == h(cfv) && ys[1] == h(cfv');
    }
  }

  predicate RegisterCollides(h: Hash, hob: bytes, cfv: bytes, hob': bytes, cfv': bytes) {
    || Collides(h, (hob, hob')) || Collides(h, (cfv, cfv'))
    || DigestsCollide(h, RegisterDigests(h, hob, cfv), RegisterDigests(h, hob', cfv'))
  }

  predicate DigestsCollide(h: Hash, xs: seq<bytes>, ys: seq<bytes>)
    requires |xs| == |ys|
  {
    Collides(h, ChainPair(h, Zeros(48), xs, Zeros(48), ys))
  }

  /** What the Python tool parses and measures of an image. */
  predicate Measures(fw: bytes, memory: nat, sections: seq<Section>, hob: bytes, cfv: bytes) {
    ParseRtmr(fw) == Some(sections) && PyHob(sections, memory) == Some(hob) && PyCfv(sections, fw) == Some(cfv)
  }

  /** Two images and memory sizes for which the Python tool predicts one register have the same volume, the same place of the
      list and the same memory in it, with disjoint sections of the same size; or a given pair of inputs collides. */
  lemma RegisterPinsMemory(h: Hash, fw: bytes, memory: nat, s: seq<Section>, hob: bytes, cfv: bytes,
                           fw': bytes, memory': nat, s': seq<Section>, hob': bytes, cfv': bytes)
    requires Measures(fw, memory, s, hob, cfv) && Measures(fw', memory', s', hob', cfv')
    requires PyRtmr0(h, fw, memory) == PyRtmr0(h, fw', memory')
    ensures || RegisterCollides(h, hob, cfv, hob', cfv')
            || (&& cfv == cfv' && HobBase(s) == HobBase(s') && MemoryOf(s, memory) == MemoryOf(s', memory')
                && (DisjointInside(memory, TakenBy(s)) && DisjointInside(memory', TakenBy(s')) ==> memory == memory'))
  {
    hide ParseRtmr, Rtmr0, RegisterCollides, HobList, Encodable, MemoryOf, HobBase, ListEnd, DisjointInside, TakenBy, PyCfv, Total;
    RegisterDetermines(h, hob, cfv, hob', cfv');
    if hob == hob' {
      HobListInjective(HobBase(s), MemoryOf(s, memory), HobBase(s'), MemoryOf(s', memory'));
      if DisjointInside(memory, TakenBy(s)) && DisjointInside(memory', TakenBy(s')) {
        MemoryConserved(s, memory);
        MemoryConserved(s', memory');
      }
    }
  }
}
