/** GUIDs as text: the hexadecimal groups with the first three byte-reversed (_library.py, `GuidLe.format`). */
module GuidText {
  import opened Bytes

  type digit = n: nat | n < 16

  function HexDigit(n: digit): char {
    "0123456789abcdef"[n]
  }

  function HexValue(c: char): Option<digit> {
    if '0' <= c <= '9' then Some(c as int - '0' as int)
    else if 'a' <= c <= 'f' then Some(c as int - 'a' as int + 10)
    else if 'A' <= c <= 'F' then Some(c as int - 'A' as int + 10)
    else None
  }

  lemma HexDigitValue(n: digit)
    ensures HexValue(HexDigit(n)) == Some(n) && HexDigit(n) != '-' && !IsSpace(HexDigit(n))
  {
  }

  /** `bytes.hex`. */
  function Hex(b: bytes): string {
    if b == [] then "" else [HexDigit(b[0] / 16), HexDigit(b[0] % 16)] + Hex(b[1..])
  }

  /** ASCII white space. */
  predicate IsSpace(c: char) {
    c == ' ' || 9 as char <= c <= 13 as char
  }

  /** `bytes.fromhex`, which skips white space between the bytes; nothing when it raises. */
  function FromHex(s: string): Option<bytes> {
    if s == "" then Some([])
    else if IsSpace(s[0]) then FromHex(s[1..])
    else if |s| == 1 then None
    else
      var high :- HexValue(s[0]);
      var low :- HexValue(s[1]);
      var rest :- FromHex(s[2..]);
      Some([16 * high + low] + rest)
  }

  function Reverse(b: bytes): (r: bytes)
    ensures |r| == |b| && forall i | 0 <= i < |b| :: r[i] == b[|b| - 1 - i]
  {
    if b == [] then [] else Reverse(b[1..]) + [b[0]]
  }

  lemma ReverseTwice(b: bytes)
    ensures Reverse(Reverse(b)) == b
  {
  }

  /** `s.split("-")`. */
  function Groups(s: string): (g: seq<string>)
    ensures |g| > 0
  {
    if s == "" then [""]
    else
      var rest := Groups(s[1..]);
      if s[0] == '-' then [""] + rest else [[s[0]] + rest[0]] + rest[1..]
  }

  function DecodeGuid(raw: bytes): string
    requires |raw| == 16
  {
    Dashed(Hex(Reverse(raw[0..4])), Dashed(Hex(Reverse(raw[4..6])), Dashed(Hex(Reverse(raw[6..8])),
      Dashed(Hex(raw[8..10]), Hex(raw[10..16])))))
  }

  function Dashed(s: string, t: string): string {
    s + "-" + t
  }

  function EncodeGroups(groups: seq<string>, i: nat): Option<bytes>
    requires i <= |groups|
    decreases |groups| - i
  {
    if i == |groups| then Some([])
    else
      var raw :- FromHex(groups[i]);
      var rest :- EncodeGroups(groups, i + 1);
      Some((if i <= 2 then Reverse(raw) else raw) + rest)
  }

  function EncodeGuid(guid: string): Option<bytes> {
    if |Groups(guid)| != 5 then None else EncodeGroups(Groups(guid), 0)
  }

  method EncodeGuidLoop(guid: string) returns (r: Option<bytes>)
    ensures r == EncodeGuid(guid)
  {
    hide FromHex, Reverse, Groups;
    var groups := Groups(guid);
    if |groups| != 5 { return None; }
    var out: bytes := [];
    for i := 0 to 5
      invariant EncodeGuid(guid) == Prepend(out, EncodeGroups(groups, i))
    {
      var raw := FromHex(groups[i]);
      if raw.None? { return None; }
      var part := if i <= 2 then Reverse(raw.value) else raw.value;
      PrependMore(out, part, EncodeGroups(groups, i + 1));
      out := out + part;
    }
    r := Some(out);
  }

  lemma {:induction false} FromHexHex(b: bytes)
    ensures FromHex(Hex(b)) == Some(b)
  {
    if b != [] {
      FromHexHex(b[1..]);
      HexDigitValue(b[0] / 16);
      HexDigitValue(b[0] % 16);
      assert Hex(b)[2..] == Hex(b[1..]);
      assert b == [b[0]] + b[1..];
    }
  }

  lemma {:induction false} HexHasNoDash(b: bytes)
    ensures '-' !in Hex(b)
  {
    if b != [] {
      HexHasNoDash(b[1..]);
      HexDigitValue(b[0] / 16);
      HexDigitValue(b[0] % 16);
    }
  }

  lemma {:induction false} GroupsOfOne(s: string)
    requires '-' !in s
    ensures Groups(s) == [s]
  {
    if s != "" {
      GroupsOfOne(s[1..]);
      assert s == [s[0]] + s[1..];
    }
  }

  lemma {:induction false} GroupsCut(s: string, t: string)
    requires '-' !in s
    ensures Groups(Dashed(s, t)) == [s] + Groups(t)
  {
    if s == "" {
      assert (s + "-" + t)[1..] == t;
    } else {
      GroupsCut(s[1..], t);
      assert (s + "-" + t)[1..] == s[1..] + "-" + t;
      assert s == [s[0]] + s[1..];
    }
  }

  /** Encoding the text of a raw GUID gives the GUID back, so different GUIDs have different texts. */
  lemma EncodeDecode(raw: bytes)
    requires |raw| == 16
    ensures EncodeGuid(DecodeGuid(raw)) == Some(raw)
  {
    hide Hex, FromHex, Reverse, Groups, Dashed, EncodeGroups;
    var a, b, c, d, e := Reverse(raw[0..4]), Reverse(raw[4..6]), Reverse(raw[6..8]), raw[8..10], raw[10..16];
    HexHasNoDash(a);
    HexHasNoDash(b);
    HexHasNoDash(c);
    HexHasNoDash(d);
    HexHasNoDash(e);
    FiveGroups(Hex(a), Hex(b), Hex(c), Hex(d), Hex(e));
    GroupsEncode(a, b, c, d, e);
    ReverseTwice(raw[0..4]);
    ReverseTwice(raw[4..6]);
    ReverseTwice(raw[6..8]);
    Reassembled(raw);
  }

  lemma Reassembled(raw: bytes)
    requires |raw| == 16
    ensures raw[0..4] + (raw[4..6] + (raw[6..8] + (raw[8..10] + raw[10..16]))) == raw
  {
  }

  lemma GroupsEncode(a: bytes, b: bytes, c: bytes, d: bytes, e: bytes)
    ensures EncodeGroups([Hex(a), Hex(b), Hex(c), Hex(d), Hex(e)], 0) == Some(Reverse(a) + (Reverse(b) + (Reverse(c) + (d + e))))
  {
    hide Hex, FromHex, Reverse;
    FromHexHex(a);
    FromHexHex(b);
    FromHexHex(c);
    FromHexHex(d);
    FromHexHex(e);
    var groups := [Hex(a), Hex(b), Hex(c), Hex(d), Hex(e)];
    assert EncodeGroups(groups, 5) == Some([]);
    assert e + [] == e;
    assert EncodeGroups(groups, 4) == Some(e);
    assert EncodeGroups(groups, 3) == Some(d + e);
    assert EncodeGroups(groups, 2) == Some(Reverse(c) + (d + e));
    assert EncodeGroups(groups, 1) == Some(Reverse(b) + (Reverse(c) + (d + e)));
  }

  lemma FiveGroups(a: string, b: string, c: string, d: string, e: string)
    requires '-' !in a && '-' !in b && '-' !in c && '-' !in d && '-' !in e
    ensures Groups(Dashed(a, Dashed(b, Dashed(c, Dashed(d, e))))) == [a, b, c, d, e]
  {
    hide Dashed, Groups;
    GroupsOfOne(e);
    GroupsCut(d, e);
    GroupsCut(c, Dashed(d, e));
    GroupsCut(b, Dashed(c, Dashed(d, e)));
    GroupsCut(a, Dashed(b, Dashed(c, Dashed(d, e))));
  }

  lemma DecodeInjective(r: bytes, s: bytes)
    requires |r| == 16 && |s| == 16 && DecodeGuid(r) == DecodeGuid(s)
    ensures r == s
  {
    EncodeDecode(r);
    EncodeDecode(s);
  }
}
