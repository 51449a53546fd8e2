/** Where the fields of an unpacked record come from, in bytes and bits of the buffer. */
module FieldPlaces {
  import opened Bytes
  import opened Schema
  import opened Records

  /** Bit `k` of a byte, the lowest one first; a byte has eight. */
  predicate BitOf(b: byte, k: nat) {
    match k
    case 0 => b % 2 == 1
    case 1 => (b / 2) % 2 == 1
    case 2 => (b / 4) % 2 == 1
    case 3 => (b / 8) % 2 == 1
    case 4 => (b / 16) % 2 == 1
    case 5 => (b / 32) % 2 == 1
    case 6 => (b / 64) % 2 == 1
    case 7 => b >= 128
    case _ => false
  }

  lemma {:induction false} HighPow2(k: nat)
    requires k >= 8
    ensures Pow2(k) >= 256
  {
    if k > 8 {
      HighPow2(k - 1);
    } else {
      LowPow2();
    }
  }

  lemma LowPow2()
    ensures Pow2(0) == 1 && Pow2(1) == 2 && Pow2(2) == 4 && Pow2(3) == 8 && Pow2(4) == 16
    ensures Pow2(5) == 32 && Pow2(6) == 64 && Pow2(7) == 128 && Pow2(8) == 256
  {
    assert Pow2(1) == 2 && Pow2(2) == 4 && Pow2(3) == 8 && Pow2(4) == 16;
    assert Pow2(5) == 32 && Pow2(6) == 64 && Pow2(7) == 128;
  }

  lemma BitIs(b: byte, k: nat)
    ensures Bit(b, k) <==> BitOf(b, k)
  {
    hide Pow2;
    LowPow2();
    if k >= 8 {
      HighPow2(k);
      assert b / Pow2(k) == 0 by {
        SmallQuotient(b, Pow2(k));
      }
    }
  }

  lemma SmallQuotient(n: nat, m: nat)
    requires n < m
    ensures n / m == 0
  {
  }

  /** What the buffer says at `at` for a field of this kind. */
  predicate Spelled(kind: Kind, buffer: bytes, at: nat, value: Value) {
    match kind
    case UInt(w) =>
      && (w == 1 ==> at + 1 <= |buffer| && value == Int(buffer[at] as int))
      && (w == 2 ==> at + 2 <= |buffer| && value == Int(Low2(buffer, at)))
      && (w == 4 ==> at + 4 <= |buffer| && value == Int(Low4(buffer, at)))
      && (w == 8 ==> at + 8 <= |buffer| && value == Int(Low8(buffer, at)))
    case Flag(k) => at < |buffer| && value == Bool(BitOf(buffer[at], k))
    case Block(n) => n > 0 ==> at + n <= |buffer| && value == Blob(buffer[at..at + n])
    case Custom(_) => true
    case Sub(s) => at + Size(s) <= |buffer| ==> Unpack(s, buffer[at..at + Size(s)]) == Some(value)
  }

  lemma ReadHolds(kind: Kind, buffer: bytes, at: nat)
    requires ReadKind(kind, buffer, at).Some?
    ensures Spelled(kind, buffer, at, ReadKind(kind, buffer, at).value)
  {
    hide Low2, Low4, Low8, BitOf, Bit, Get;
    GetIs(buffer, at);
    if kind.Flag? {
      BitIs(buffer[at], kind.index);
    }
  }

  /** Field `i` of an unpacked record holds what the buffer says at the field's place. */
  lemma FieldHolds(schema: Schema, i: nat, at: nat, buffer: bytes)
    requires Covered(schema) && Size(schema) <= |buffer| && i < |schema.fields| && Offset(schema.fields, i) == at
    requires schema.hook.Plain?
    ensures Unpack(schema, buffer).Some? && Unpack(schema, buffer).value.Rec?
    ensures var data := Unpack(schema, buffer).value.data;
            schema.fields[i].name in data && Spelled(schema.fields[i].kind, buffer, at, data[schema.fields[i].name])
  {
    hide Covered, Offset, Unpack, Spelled, ReadKind;
    FieldIs(schema, i, buffer);
    ReadHolds(schema.fields[i].kind, buffer, at);
  }

  /** The record has that value under that name. */
  predicate Has(record: Value, name: string, value: Value) {
    record.Rec? && name in record.data && record.data[name] == value
  }

  /** A number field of an unpacked record. */
  lemma NumberOf(schema: Schema, i: nat, name: string, w: nat, at: nat, b: bytes)
    requires Sized(schema) && schema.hook.Plain? && Size(schema) <= |b| && (w == 2 || w == 4)
    requires i < |schema.fields| && schema.fields[i] == Field(name, UInt(w)) && Offset(schema.fields, i) == at
    ensures Unpack(schema, b).Some? && at + w <= |b|
    ensures Num(Unpack(schema, b).value, name) == if w == 2 then Low2(b, at) else Low4(b, at)
  {
    hide Offset, Unpack, Low2, Low4;
    FieldHolds(schema, i, at, b);
  }

  /** A record is read exactly when it fits. */
  lemma HeaderFits(schema: Schema, b: bytes)
    requires Sized(schema)
    ensures Unpack(schema, b).Some? <==> |b| >= Size(schema)
  {
    hide Solid, Size;
    UnpackPacks(schema, b);
  }

  // ----- setting a field

  /** What a field of this kind admits: numbers below the limit of their width, booleans, records of its size; blocks and custom
      fields take anything. */
  predicate Admits(kind: Kind, value: Value) {
    match kind
    case UInt(w) =>
      && value.Int?
      && (w == 1 ==> value.n < 0x100) && (w == 2 ==> value.n < 0x1_0000) && (w == 4 ==> value.n < 0x1_0000_0000)
      && (w == 8 ==> value.n < 0x1_0000_0000_0000_0000)
    case Flag(_) => value.Bool?
    case Block(_) => true
    case Custom(_) => true
    case Sub(s) => value.Rec? && Size(value.schema) == Size(s)
  }

  /** Only names of no field are ignored; of several fields with one name the first decides, and a value it does not admit is
      refused. */
  lemma SetIs(fields: seq<Field>, data: map<string, Value>, name: string, value: Value, i: nat)
    requires i <= |fields| && forall j | 0 <= j < i :: fields[j].name != name
    requires i < |fields| ==> fields[i].name == name && (fields[i].kind.UInt? ==> fields[i].kind.width in {1, 2, 4, 8})
    ensures SetField(fields, data, name, value) ==
      if i == |fields| then Some(data) else if Admits(fields[i].kind, value) then Some(data[name := value]) else None
  {
    hide Offset, Pow256;
    PowValues();
    FirstIndex(fields, name, 0, i);
  }

  lemma {:induction false} FirstIndex(fields: seq<Field>, name: string, from: nat, i: nat)
    requires from <= i <= |fields| && forall j | from <= j < i :: fields[j].name != name
    requires i < |fields| ==> fields[i].name == name
    ensures IndexOf(fields, name, from) == if i < |fields| then Some(i) else None
    decreases i - from
  {
    if from < i {
      FirstIndex(fields, name, from + 1, i);
    }
  }
}
