/** The schema-driven record codec of the browser tool (class `ctype`). */
module Schema {
  import opened Bytes

  /** A field type: `u8` to `u64` by width in bytes, `bool`, a sized byte block, `custom`, another record class. */
  datatype Kind = UInt(width: nat) | Flag(index: nat) | Block(size: nat) | Custom(size: nat) | Sub(schema: Schema)

  datatype Field = Field(name: string, kind: Kind)

  /** What an overriding `unpack` does after the inherited one. */
  datatype Hook = Plain | SigningKey

  /** A record class: its FIELDS array and its `unpack`. */
  datatype Schema = Schema(fields: seq<Field>, hook: Hook)

  /** A field value: number, boolean, `Uint8Array`, `ArrayBuffer`, `DataView`, string or record. */
  datatype Value =
    | Int(n: int)
    | Bool(b: bool)
    | Blob(bytes: bytes)
    | Buffer(bytes: bytes)
    | View(bytes: bytes)
    | Text(s: string)
    | Rec(schema: Schema, data: map<string, Value>)

  function KindSize(kind: Kind): nat
    decreases kind, 0
  {
    match kind
    case UInt(w) => w
    case Flag(_) => 0
    case Block(n) => n
    case Custom(n) => n
    case Sub(s) => Offset(s.fields, |s.fields|)
  }

  /** Where field `i` starts. */
  function Offset(fields: seq<Field>, i: nat): nat
    requires i <= |fields|
    decreases fields, i
  {
    if i == 0 then 0 else Offset(fields, i - 1) + KindSize(fields[i - 1].kind)
  }

  function Size(schema: Schema): nat {
    Offset(schema.fields, |schema.fields|)
  }

  lemma {:induction false} OffsetMonotone(fields: seq<Field>, i: nat, j: nat)
    requires i <= j <= |fields|
    ensures Offset(fields, i) <= Offset(fields, j)
    decreases j
  {
    if i < j {
      OffsetMonotone(fields, i, j - 1);
    }
  }

  /** The first field of that name at or after `from`. */
  function IndexOf(fields: seq<Field>, name: string, from: nat): (r: Option<nat>)
    requires from <= |fields|
    ensures r.Some? ==> from <= r.value < |fields| && fields[r.value].name == name
    ensures forall i | from <= i < (if r.Some? then r.value else |fields|) :: fields[i].name != name
    decreases |fields| - from
  {
    if from == |fields| then None else if fields[from].name == name then Some(from) else IndexOf(fields, name, from + 1)
  }

  predicate Safe(value: Value, kind: Kind) {
    match kind
    case UInt(w) => value.Int? && value.n < Pow256(w)
    case Flag(_) => value.Bool?
    case Block(_) => true
    case Custom(_) => true
    case Sub(s) => value.Rec? && Size(value.schema) == Size(s)
  }

  /** `set`: the first field of that name decides; a name that is no field is ignored. */
  function SetField(fields: seq<Field>, data: map<string, Value>, name: string, value: Value): Option<map<string, Value>> {
    match IndexOf(fields, name, 0)
    case None => Some(data)
    case Some(i) => if Safe(value, fields[i].kind) then Some(data[name := value]) else None
  }

  function Pow2(i: nat): (p: nat)
    ensures p > 0
  {
    if i == 0 then 1 else 2 * Pow2(i - 1)
  }

  /** `ctype.flag`. */
  predicate Bit(b: byte, index: nat) {
    (b / Pow2(index)) % 2 != 0
  }

  // ----- unpack

  function ReadKind(kind: Kind, buffer: bytes, offset: nat): Option<Value>
    decreases kind
  {
    match kind
    case UInt(w) =>
      var n :- Get(buffer, offset, w);
      Some(Int(n))
    case Flag(index) =>
      if offset < |buffer| then Some(Bool(Bit(buffer[offset], index))) else None
    case Block(n) =>
      if n == 0 then Some(Blob([]))
      else if offset + n <= |buffer| then Some(Blob(buffer[offset..offset + n])) else None
    case Custom(n) =>
      if n == 0 then Some(View(buffer)) else Some(Buffer(Slice(Slice(buffer, offset, |buffer|), 0, n)))
    case Sub(s) =>
      Unpack(s, Slice(buffer, offset, offset + Size(s)))
  }

  function UnpackFrom(schema: Schema, i: nat, buffer: bytes, offset: nat, data: map<string, Value>): Option<map<string, Value>>
    requires i <= |schema.fields|
    decreases schema, 0, |schema.fields| - i
  {
    if i == |schema.fields| then Some(data)
    else
      var Field(name, kind) := schema.fields[i];
      var value :- ReadKind(kind, buffer, offset);
      var data' :- SetField(schema.fields, data, name, value);
      UnpackFrom(schema, i + 1, buffer, offset + KindSize(kind), data')
  }

  function RunHook(schema: Schema, data: map<string, Value>): Option<map<string, Value>> {
    match schema.hook
    case Plain => Some(data)
    case SigningKey =>
      if "signing_key" in data && data["signing_key"].View? && data["signing_key"].bytes != [] then
        var raw := data["signing_key"].bytes[0];
        SetField(schema.fields, data, "signing_key", Text(if raw / 4 == 0 then "VCEK" else "VLEK"))
      else None
  }

  /** `unpack`; nothing when it throws. */
  function Unpack(schema: Schema, buffer: bytes): Option<Value>
    decreases schema, 1
  {
    var data :- UnpackFrom(schema, 0, buffer, 0, map[]);
    var data' :- RunHook(schema, data);
    Some(Rec(schema, data'))
  }

  // ----- pack

  /** The bytes `Uint8Array.set` copies out of a value: only byte arrays have any, and a text counts one
      zero for each of its (non-digit) characters. */
  function Copied(value: Value): bytes {
    match value
    case Blob(b) => b
    case Text(s) => Zeros(|s|)
    case _ => []
  }

  function WriteKind(kind: Kind, record: Value, name: string, buffer: bytes, offset: nat): Option<bytes>
    requires record.Rec?
    decreases record, 0
  {
    var data := record.data;
    match kind
    case UInt(w) => Put(buffer, offset, Le(if name in data && data[name].Int? then data[name].n else 0, w))
    case Flag(_) => Some(buffer)
    case Block(n) => Put(buffer, offset, if name in data then Copied(data[name]) else Zeros(n))
    case Custom(n) => if name in data then Put(buffer, offset, Copied(data[name])) else None
    case Sub(_) =>
      if name in data && data[name].Rec? then
        var inner :- Pack(data[name]);
        Put(buffer, offset, inner)
      else None
  }

  function Advance(kind: Kind, record: Value, name: string): nat
    requires record.Rec?
  {
    if kind.Sub? && name in record.data && record.data[name].Rec? then Size(record.data[name].schema) else KindSize(kind)
  }

  function PackFrom(record: Value, i: nat, buffer: bytes, offset: nat): Option<bytes>
    requires record.Rec? && i <= |record.schema.fields|
    decreases record, 1, |record.schema.fields| - i
  {
    if i == |record.schema.fields| then Some(buffer)
    else
      var Field(name, kind) := record.schema.fields[i];
      var buffer' :- WriteKind(kind, record, name, buffer, offset);
      PackFrom(record, i + 1, buffer', offset + Advance(kind, record, name))
  }

  /** `pack`; nothing when it throws. */
  function Pack(record: Value): Option<bytes>
    requires record.Rec?
    decreases record, 2
  {
    PackFrom(record, 0, Zeros(Size(record.schema)), 0)
  }

  // ----- what a packed record is

  function EncodeKind(record: Value, name: string, kind: Kind): bytes
    requires record.Rec?
    decreases record, 0
  {
    match kind
    case UInt(w) => Le(if name in record.data && record.data[name].Int? then record.data[name].n else 0, w)
    case Flag(_) => []
    case Block(n) => if name in record.data then Copied(record.data[name]) else Zeros(n)
    case Custom(n) => if n > 0 && name in record.data then Copied(record.data[name]) else []
    case Sub(_) => if name in record.data && record.data[name].Rec? then Encode(record.data[name]) else []
  }

  /** The fields from number `i` on laid end to end; zero-width fields contribute nothing. */
  function EncodeFrom(record: Value, i: nat): bytes
    requires record.Rec? && i <= |record.schema.fields|
    decreases record, 1, |record.schema.fields| - i
  {
    if i == |record.schema.fields| then []
    else EncodeKind(record, record.schema.fields[i].name, record.schema.fields[i].kind) + EncodeFrom(record, i + 1)
  }

  function Encode(record: Value): bytes
    requires record.Rec?
    decreases record, 2
  {
    EncodeFrom(record, 0)
  }

  /** The bytes of the fields behind number `i`. */
  function After(fields: seq<Field>, i: nat): int
    requires i < |fields|
  {
    Offset(fields, |fields|) - Offset(fields, i + 1)
  }

  /** A field value has the width its schema gives it; a value of a zero-width `custom` field is
      overwritten by the `after` bytes of the fields behind it. */
  predicate FitsKind(record: Value, name: string, kind: Kind, after: int)
    requires record.Rec?
    decreases record, 0
  {
    match kind
    case UInt(_) => true
    case Flag(_) => true
    case Block(n) => name in record.data ==> |Copied(record.data[name])| == n
    case Custom(n) =>
      name in record.data && (if n == 0 then |Copied(record.data[name])| <= after else |Copied(record.data[name])| == n)
    case Sub(s) =>
      name in record.data && record.data[name].Rec? && Size(record.data[name].schema) == Size(s) && Fits(record.data[name])
  }

  predicate Fits(record: Value)
    requires record.Rec?
    decreases record, 2
  {
    forall i | 0 <= i < |record.schema.fields| :: FitsAt(record, i)
  }

  predicate FitsAt(record: Value, i: nat)
    requires record.Rec? && i < |record.schema.fields|
    decreases record, 1
  {
    FitsKind(record, record.schema.fields[i].name, record.schema.fields[i].kind, After(record.schema.fields, i))
  }

  lemma {:induction false} EncodeLength(record: Value, i: nat)
    requires record.Rec? && Fits(record) && i <= |record.schema.fields|
    ensures |EncodeFrom(record, i)| == Size(record.schema) - Offset(record.schema.fields, i)
    decreases record, |record.schema.fields| - i
  {
    if i < |record.schema.fields| {
      var Field(name, kind) := record.schema.fields[i];
      assert FitsAt(record, i);
      assert FitsKind(record, name, kind, After(record.schema.fields, i));
      if kind.Sub? {
        EncodeLength(record.data[name], 0);
      }
      assert |EncodeKind(record, name, kind)| == KindSize(kind);
      EncodeLength(record, i + 1);
    }
  }

  lemma PutIs(buffer: bytes, at: nat, data: bytes, next: nat)
    requires at + |data| <= |buffer| && at <= next <= |buffer|
    ensures Put(buffer, at, data).Some? && |Put(buffer, at, data).value| == |buffer|
    ensures next == at + |data| ==> Put(buffer, at, data).value[..next] == buffer[..at] + data
    ensures next == at ==> Put(buffer, at, data).value[..next] == buffer[..at]
  {
  }

  /** Writing one field puts its encoding at its place and leaves what lies in front alone. */
  lemma WriteEncodes(record: Value, name: string, kind: Kind, buffer: bytes, at: nat, after: nat)
    requires record.Rec? && FitsKind(record, name, kind, after) && at + KindSize(kind) + after == |buffer|
    requires kind.Sub? ==>
      Pack(record.data[name]) == Some(Encode(record.data[name])) && |Encode(record.data[name])| == KindSize(kind)
    ensures var next := at + KindSize(kind);
            var written := WriteKind(kind, record, name, buffer, at);
            && written.Some? && |written.value| == |buffer|
            && written.value[..next] == buffer[..at] + EncodeKind(record, name, kind)
    ensures Advance(kind, record, name) == KindSize(kind)
  {
    hide Put, Le, Encode, Pack, Fits;
    var next := at + KindSize(kind);
    assert buffer[..at] + [] == buffer[..at];
    match kind
    case UInt(w) =>
      PutIs(buffer, at, Le(if name in record.data && record.data[name].Int? then record.data[name].n else 0, w), next);
    case Flag(_) =>
    case Block(n) => PutIs(buffer, at, if name in record.data then Copied(record.data[name]) else Zeros(n), next);
    case Custom(n) => PutIs(buffer, at, Copied(record.data[name]), next);
    case Sub(_) => PutIs(buffer, at, Encode(record.data[name]), next);
  }

  /** Packing field `i` on writes exactly the encoded fields to the end of the buffer, whatever was there. */
  lemma {:induction false} PackFromIsEncode(record: Value, i: nat, buffer: bytes)
    requires record.Rec? && Fits(record) && i <= |record.schema.fields|
    requires |buffer| == Size(record.schema)
    ensures var at := Offset(record.schema.fields, i);
            at <= |buffer| && PackFrom(record, i, buffer, at) == Some(buffer[..at] + EncodeFrom(record, i))
    decreases record, |record.schema.fields| - i
  {
    hide WriteKind, EncodeKind, FitsKind, Advance, KindSize;
    var fs := record.schema.fields;
    var at := Offset(fs, i);
    OffsetMonotone(fs, i, |fs|);
    if i < |fs| {
      var Field(name, kind) := fs[i];
      var next := Offset(fs, i + 1);
      OffsetMonotone(fs, i + 1, |fs|);
      assert FitsAt(record, i);
      FieldFits(record, i);
      if kind.Sub? {
        PackIsEncode(record.data[name]);
      }
      WriteEncodes(record, name, kind, buffer, at, After(fs, i));
      var encoded := EncodeKind(record, name, kind);
      var buffer' := WriteKind(kind, record, name, buffer, at).value;
      PackFromIsEncode(record, i + 1, buffer');
      Assoc(buffer[..at], encoded, EncodeFrom(record, i + 1));
    } else {
      assert buffer[..at] + [] == buffer;
    }
  }

  lemma FieldFits(record: Value, i: nat)
    requires record.Rec? && i < |record.schema.fields| && FitsAt(record, i)
    ensures var Field(name, kind) := record.schema.fields[i];
            && FitsKind(record, name, kind, After(record.schema.fields, i))
            && (kind.Sub? ==> name in record.data && record.data[name].Rec? && Fits(record.data[name])
                              && Size(record.data[name].schema) == KindSize(kind))
  {
  }

  /** A record whose values have their widths packs to its encoded fields. */
  lemma {:induction false} PackIsEncode(record: Value)
    requires record.Rec? && Fits(record)
    ensures Pack(record) == Some(Encode(record)) && |Encode(record)| == Size(record.schema)
    decreases record, |record.schema.fields| + 1
  {
    PackFromIsEncode(record, 0, Zeros(Size(record.schema)));
    EncodeLength(record, 0);
    assert Zeros(Size(record.schema))[..0] + Encode(record) == Encode(record);
  }

  // ----- the round trips

  /** A boolean has a byte after it to live in, and no `custom` field has a width of its own. */
  predicate CoveredKind(kind: Kind, after: int) {
    match kind
    case UInt(_) => true
    case Flag(_) => after > 0
    case Block(_) => true
    case Custom(n) => n == 0
    case Sub(s) => Covered(s)
  }

  predicate UniqueNames(fields: seq<Field>) {
    forall i, j | 0 <= i < j < |fields| :: fields[i].name != fields[j].name
  }

  /** The `SigningKey` hook writes its four characters over bytes that later fields own. */
  predicate HookCovered(schema: Schema) {
    schema.hook.SigningKey? ==>
      exists i | 0 <= i < |schema.fields| :: IsSigningKey(schema.fields, i)
  }

  predicate IsSigningKey(fields: seq<Field>, i: nat)
    requires i < |fields|
  {
    fields[i] == Field("signing_key", Custom(0)) && After(fields, i) >= 4
  }

  predicate Covered(schema: Schema)
    decreases schema, 1
  {
    && UniqueNames(schema.fields)
    && (forall i | 0 <= i < |schema.fields| :: CoveredAt(schema, i))
    && HookCovered(schema)
  }

  predicate CoveredAt(schema: Schema, i: nat)
    requires i < |schema.fields|
    decreases schema, 0
  {
    CoveredKind(schema.fields[i].kind, After(schema.fields, i))
  }

  lemma UniqueIndex(fields: seq<Field>, i: nat)
    requires UniqueNames(fields) && i < |fields|
    ensures IndexOf(fields, fields[i].name, 0) == Some(i)
  {
    var r := IndexOf(fields, fields[i].name, 0);
    if r.Some? && r.value > i {
      assert false;
    }
  }

  /** Every field from `i` on holds what reading the buffer at its place gives. */
  ghost predicate Holds(schema: Schema, i: nat, buffer: bytes, data: map<string, Value>)
    requires i <= |schema.fields|
  {
    forall j | i <= j < |schema.fields| :: HoldsAt(schema, j, buffer, data)
  }

  ghost predicate HoldsAt(schema: Schema, j: nat, buffer: bytes, data: map<string, Value>)
    requires j < |schema.fields|
  {
    && schema.fields[j].name in data
    && ReadKind(schema.fields[j].kind, buffer, Offset(schema.fields, j)) == Some(data[schema.fields[j].name])
  }

  ghost function NamesFrom(fields: seq<Field>, i: nat): set<string>
    requires i <= |fields|
  {
    set j | i <= j < |fields| :: fields[j].name
  }

  /** Reading one field of a long enough buffer succeeds with a value its schema accepts. */
  lemma {:induction false} ReadKindSafe(kind: Kind, buffer: bytes, offset: nat, after: nat)
    requires offset + KindSize(kind) + after <= |buffer| && CoveredKind(kind, after)
    ensures ReadKind(kind, buffer, offset).Some? && Safe(ReadKind(kind, buffer, offset).value, kind)
    decreases kind, 0
  {
    if kind.Sub? {
      UnpackHolds(kind.schema, Slice(buffer, offset, offset + KindSize(kind)));
    }
  }

  /** `data'` is `data` with new values for exactly the fields from `i` on. */
  ghost predicate Filled(fields: seq<Field>, i: nat, data: map<string, Value>, data': map<string, Value>)
    requires i <= |fields|
  {
    && data'.Keys == data.Keys + NamesFrom(fields, i)
    && forall name <- data :: name !in NamesFrom(fields, i) ==> data'[name] == data[name]
  }

  lemma FilledStep(fields: seq<Field>, i: nat, data: map<string, Value>, value: Value, data': map<string, Value>)
    requires UniqueNames(fields) && i < |fields|
    requires Filled(fields, i + 1, data[fields[i].name := value], data')
    ensures Filled(fields, i, data, data') && fields[i].name in data' && data'[fields[i].name] == value
  {
    assert fields[i].name !in NamesFrom(fields, i + 1);
    assert NamesFrom(fields, i) == {fields[i].name} + NamesFrom(fields, i + 1);
  }

  lemma {:induction false} UnpackStep(schema: Schema, i: nat, buffer: bytes, data: map<string, Value>)
    requires Covered(schema) && i < |schema.fields| && Size(schema) <= |buffer|
    ensures var Field(name, kind) := schema.fields[i];
            var value := ReadKind(kind, buffer, Offset(schema.fields, i));
            && value.Some?
            && UnpackFrom(schema, i, buffer, Offset(schema.fields, i), data)
            == UnpackFrom(schema, i + 1, buffer, Offset(schema.fields, i + 1), data[name := value.value])
    decreases schema, 0, |schema.fields| - i, 0
  {
    var fs := schema.fields;
    OffsetMonotone(fs, i + 1, |fs|);
    assert CoveredAt(schema, i);
    ReadKindSafe(fs[i].kind, buffer, Offset(fs, i), After(fs, i));
    UniqueIndex(fs, i);
  }

  lemma HoldsStep(schema: Schema, i: nat, buffer: bytes, data: map<string, Value>)
    requires i < |schema.fields| && Holds(schema, i + 1, buffer, data) && HoldsAt(schema, i, buffer, data)
    ensures Holds(schema, i, buffer, data)
  {
  }

  lemma {:induction false} UnpackFromHolds(schema: Schema, i: nat, buffer: bytes, data: map<string, Value>)
    requires Covered(schema) && i <= |schema.fields| && Size(schema) <= |buffer|
    ensures var r := UnpackFrom(schema, i, buffer, Offset(schema.fields, i), data);
            r.Some? && Holds(schema, i, buffer, r.value) && Filled(schema.fields, i, data, r.value)
    decreases schema, 0, |schema.fields| - i, 1
  {
    if i < |schema.fields| {
      var Field(name, kind) := schema.fields[i];
      var value := ReadKind(kind, buffer, Offset(schema.fields, i));
      UnpackStep(schema, i, buffer, data);
      UnpackFromHolds(schema, i + 1, buffer, data[name := value.value]);
      var r := UnpackFrom(schema, i, buffer, Offset(schema.fields, i), data).value;
      FilledStep(schema.fields, i, data, value.value, r);
      HoldsStep(schema, i, buffer, r);
    }
  }

  lemma HookHolds(schema: Schema, buffer: bytes, data: map<string, Value>)
    requires Covered(schema) && Size(schema) <= |buffer| && Holds(schema, 0, buffer, data)
    ensures RunHook(schema, data).Some? && RunHook(schema, data).value.Keys == data.Keys
    ensures HoldsButHook(Rec(schema, RunHook(schema, data).value), buffer)
  {
    var fs := schema.fields;
    if schema.hook.SigningKey? {
      var i :| 0 <= i < |fs| && IsSigningKey(fs, i);
      assert HoldsAt(schema, i, buffer, data);
      OffsetMonotone(fs, 0, i + 1);
      UniqueIndex(fs, i);
      var data' := RunHook(schema, data).value;
      forall j | 0 <= j < |fs| ensures HoldsButHookAt(Rec(schema, data'), j, buffer) {
        assert HoldsAt(schema, j, buffer, data);
        if fs[j].name == "signing_key" {
          UniqueIndex(fs, j);
        }
      }
    } else {
      forall j | 0 <= j < |fs| ensures HoldsButHookAt(Rec(schema, data), j, buffer) {
        assert HoldsAt(schema, j, buffer, data);
      }
    }
  }

  lemma {:induction false} UnpackHolds(schema: Schema, buffer: bytes)
    requires Covered(schema) && Size(schema) <= |buffer|
    ensures var r := Unpack(schema, buffer);
            && r.Some? && r.value.Rec? && r.value.schema == schema && r.value.data.Keys == NamesFrom(schema.fields, 0)
            && HoldsButHook(r.value, buffer)
    decreases schema, 1
  {
    UnpackFromHolds(schema, 0, buffer, map[]);
    HookHolds(schema, buffer, UnpackFrom(schema, 0, buffer, 0, map[]).value);
  }

  /** Every field holds what was read, except that the hook has named the signing key. */
  ghost predicate HoldsButHook(record: Value, buffer: bytes)
    requires record.Rec?
  {
    forall j | 0 <= j < |record.schema.fields| :: HoldsButHookAt(record, j, buffer)
  }

  ghost predicate HoldsButHookAt(record: Value, j: nat, buffer: bytes)
    requires record.Rec? && j < |record.schema.fields|
  {
    var fs := record.schema.fields;
    && fs[j].name in record.data
    && var value := record.data[fs[j].name];
       ReadKind(fs[j].kind, buffer, Offset(fs, j)) == Some(value)
       || (fs[j].kind == Custom(0) && |Copied(value)| <= After(fs, j))
  }

  lemma {:induction false} EncodeKindHolds(kind: Kind, buffer: bytes, offset: nat, record: Value, name: string, after: nat)
    requires record.Rec? && name in record.data
    requires offset + KindSize(kind) + after <= |buffer| && CoveredKind(kind, after)
    requires ReadKind(kind, buffer, offset) == Some(record.data[name]) || (kind == Custom(0) && |Copied(record.data[name])| <= after)
    ensures EncodeKind(record, name, kind) == buffer[offset..offset + KindSize(kind)]
    ensures FitsKind(record, name, kind, after)
    decreases kind, 0
  {
    match kind
    case UInt(w) => LeUnLe(buffer[offset..offset + w]);
    case Flag(_) =>
    case Block(_) =>
    case Custom(_) =>
    case Sub(s) =>
      UnpackEncodes(s, buffer[offset..offset + Size(s)]);
  }

  lemma {:induction false} EncodeAtHolds(record: Value, i: nat, buffer: bytes)
    requires record.Rec? && Covered(record.schema) && Size(record.schema) <= |buffer|
    requires i < |record.schema.fields| && HoldsButHook(record, buffer)
    ensures var fs := record.schema.fields;
            && Offset(fs, i) <= Offset(fs, i + 1) <= Size(record.schema)
            && EncodeKind(record, fs[i].name, fs[i].kind) == buffer[Offset(fs, i)..Offset(fs, i + 1)]
            && FitsAt(record, i)
    decreases record.schema, 0
  {
    var fs := record.schema.fields;
    OffsetMonotone(fs, i + 1, |fs|);
    assert HoldsButHookAt(record, i, buffer) && CoveredAt(record.schema, i);
    EncodeKindHolds(fs[i].kind, buffer, Offset(fs, i), record, fs[i].name, After(fs, i));
  }

  lemma {:induction false} EncodeFromHolds(record: Value, i: nat, buffer: bytes)
    requires record.Rec? && Covered(record.schema) && Size(record.schema) <= |buffer|
    requires i <= |record.schema.fields| && HoldsButHook(record, buffer)
    ensures Offset(record.schema.fields, i) <= Size(record.schema)
    ensures EncodeFrom(record, i) == buffer[Offset(record.schema.fields, i)..Size(record.schema)]
    decreases record.schema, 1, |record.schema.fields| - i
  {
    var fs := record.schema.fields;
    if i < |fs| {
      EncodeAtHolds(record, i, buffer);
      EncodeFromHolds(record, i + 1, buffer);
      assert buffer[Offset(fs, i)..Offset(fs, i + 1)] + buffer[Offset(fs, i + 1)..Size(record.schema)]
          == buffer[Offset(fs, i)..Size(record.schema)];
    }
  }

  /** What `unpack` reads from a long enough buffer encodes back to the bytes it covers. */
  lemma {:induction false} UnpackEncodes(schema: Schema, buffer: bytes)
    requires Covered(schema) && Size(schema) <= |buffer|
    ensures var r := Unpack(schema, buffer);
            && r.Some? && r.value.Rec? && r.value.schema == schema
            && Fits(r.value) && Encode(r.value) == buffer[..Size(schema)]
    decreases schema, 2
  {
    UnpackHolds(schema, buffer);
    var record := Unpack(schema, buffer).value;
    EncodeFromHolds(record, 0, buffer);
    forall i | 0 <= i < |schema.fields| ensures FitsAt(record, i) {
      EncodeAtHolds(record, i, buffer);
    }
  }

  /** Unpacking any long enough buffer and packing the record again gives back exactly the bytes it covers. */
  lemma PackUnpack(schema: Schema, buffer: bytes)
    requires Covered(schema) && Size(schema) <= |buffer|
    ensures Unpack(schema, buffer).Some? && Unpack(schema, buffer).value.Rec?
    ensures Pack(Unpack(schema, buffer).value) == Some(buffer[..Size(schema)])
  {
    UnpackEncodes(schema, buffer);
    PackIsEncode(Unpack(schema, buffer).value);
  }

  lemma SamePiece(b: bytes, c: bytes, at: nat, next: nat, n: nat)
    requires at <= next <= n <= |b| && n <= |c| && b[..n] == c[..n]
    ensures b[at..next] == c[at..next] && (at < n ==> b[at] == c[at])
  {
    PieceOfTake(b, n, at, next);
    PieceOfTake(c, n, at, next);
    if at < n {
      assert b[at] == b[..n][at] && c[at] == c[..n][at];
    }
  }

  lemma ReadKindLocal(kind: Kind, b: bytes, c: bytes, at: nat, n: nat)
    requires at + KindSize(kind) <= n <= |b| && n <= |c| && b[..n] == c[..n]
    requires !kind.Custom? && (kind.Flag? ==> at < n)
    ensures ReadKind(kind, b, at) == ReadKind(kind, c, at)
  {
    hide UnLe, Unpack, Offset;
    SamePiece(b, c, at, at + KindSize(kind), n);
  }

  /** A field of an unpacked record depends on nothing but a prefix of the buffer that contains it. */
  lemma FieldLocal(schema: Schema, i: nat, b: bytes, c: bytes, n: nat)
    requires Covered(schema) && schema.hook.Plain? && Size(schema) <= |b| && Size(schema) <= |c|
    requires i < |schema.fields| && Offset(schema.fields, i + 1) <= n <= |b| && n <= |c| && b[..n] == c[..n]
    requires !schema.fields[i].kind.Custom? && (schema.fields[i].kind.Flag? ==> Offset(schema.fields, i) < n)
    ensures Unpack(schema, b).Some? && Unpack(schema, b).value.Rec? && Unpack(schema, c).Some? && Unpack(schema, c).value.Rec?
    ensures var name := schema.fields[i].name;
            && name in Unpack(schema, b).value.data && name in Unpack(schema, c).value.data
            && Unpack(schema, b).value.data[name] == Unpack(schema, c).value.data[name]
  {
    UnpackHolds(schema, b);
    UnpackHolds(schema, c);
    assert HoldsButHookAt(Unpack(schema, b).value, i, b) && HoldsButHookAt(Unpack(schema, c).value, i, c);
    ReadKindLocal(schema.fields[i].kind, b, c, Offset(schema.fields, i), n);
  }

  /** A block field holds the bytes at its place. */
  lemma BlockValue(schema: Schema, i: nat, buffer: bytes)
    requires Covered(schema) && Size(schema) <= |buffer| && i < |schema.fields| && schema.fields[i].kind.Block?
    ensures Unpack(schema, buffer).Some? && Unpack(schema, buffer).value.Rec?
    ensures var Field(name, kind) := schema.fields[i];
            var at := Offset(schema.fields, i);
            && at + kind.size <= |buffer|
            && name in Unpack(schema, buffer).value.data
            && Unpack(schema, buffer).value.data[name] == Blob(buffer[at..at + kind.size])
  {
    UnpackHolds(schema, buffer);
    OffsetMonotone(schema.fields, i + 1, |schema.fields|);
    assert HoldsButHookAt(Unpack(schema, buffer).value, i, buffer);
    assert schema.fields[i].kind.size == 0 ==> buffer[Offset(schema.fields, i)..Offset(schema.fields, i)] == [];
  }

  /** The field whose view the hook replaces by a name. */
  predicate Hooked(schema: Schema, i: nat)
    requires i < |schema.fields|
  {
    schema.hook.SigningKey? && schema.fields[i].name == "signing_key"
  }

  function KeyName(b: byte): Value {
    Text(if b / 4 == 0 then "VCEK" else "VLEK")
  }

  /** What every field of an unpacked record holds. */
  lemma FieldIs(schema: Schema, i: nat, buffer: bytes)
    requires Covered(schema) && Size(schema) <= |buffer| && i < |schema.fields|
    ensures Unpack(schema, buffer).Some? && Unpack(schema, buffer).value.Rec?
    ensures var Field(name, kind) := schema.fields[i];
            var data := Unpack(schema, buffer).value.data;
            && name in data
            && (Hooked(schema, i) ==> buffer != [] && kind == Custom(0) && data[name] == KeyName(buffer[0]))
            && (!Hooked(schema, i) ==> ReadKind(kind, buffer, Offset(schema.fields, i)) == Some(data[name]))
  {
    hide ReadKind, Covered;
    UnpackFromHolds(schema, 0, buffer, map[]);
    var data := UnpackFrom(schema, 0, buffer, 0, map[]).value;
    assert HoldsAt(schema, i, buffer, data);
    HookIs(schema, buffer, data);
    if Hooked(schema, i) {
      KeyIs(schema, i, buffer, data);
    }
  }

  lemma HookIs(schema: Schema, buffer: bytes, data: map<string, Value>)
    requires Covered(schema) && Size(schema) <= |buffer| && Holds(schema, 0, buffer, data)
    ensures RunHook(schema, data).Some?
    ensures RunHook(schema, data).value ==
      if schema.hook.SigningKey? then data["signing_key" := RunHook(schema, data).value["signing_key"]] else data
  {
    HookHolds(schema, buffer, data);
  }

  lemma KeyIs(schema: Schema, i: nat, buffer: bytes, data: map<string, Value>)
    requires Covered(schema) && Size(schema) <= |buffer| && Holds(schema, 0, buffer, data)
    requires i < |schema.fields| && Hooked(schema, i)
    ensures schema.fields[i].kind == Custom(0) && buffer != []
    ensures RunHook(schema, data).Some? && RunHook(schema, data).value["signing_key"] == KeyName(buffer[0])
  {
    var fs := schema.fields;
    var k :| 0 <= k < |fs| && IsSigningKey(fs, k);
    assert k == i;
    assert HoldsAt(schema, i, buffer, data);
    OffsetMonotone(fs, 0, i + 1);
    UniqueIndex(fs, i);
  }

  /** A field that keeps a view of the whole buffer. */
  predicate KeepsView(schema: Schema, i: nat)
    requires i < |schema.fields|
  {
    schema.fields[i].kind.Custom? && !Hooked(schema, i)
  }

  /** Two buffers that agree on the bytes of a record unpack to the same record exactly when they are the same buffer, or no
      field keeps a view of it; all other fields are the same in any case. */
  lemma UnpackLocal(schema: Schema, b: bytes, c: bytes)
    requires Covered(schema) && Size(schema) <= |b| && Size(schema) <= |c| && b[..Size(schema)] == c[..Size(schema)]
    ensures Unpack(schema, b).Some? && Unpack(schema, b).value.Rec? && Unpack(schema, c).Some? && Unpack(schema, c).value.Rec?
    ensures var x, y := Unpack(schema, b).value.data, Unpack(schema, c).value.data;
            && x.Keys == y.Keys == NamesFrom(schema.fields, 0)
            && forall i | 0 <= i < |schema.fields| && !KeepsView(schema, i) ::
                 x[schema.fields[i].name] == y[schema.fields[i].name]
    ensures Unpack(schema, b) == Unpack(schema, c) <==>
              b == c || forall i | 0 <= i < |schema.fields| :: !KeepsView(schema, i)
  {
    hide ReadKind, Covered;
    UnpackHolds(schema, b);
    UnpackHolds(schema, c);
    forall i | 0 <= i < |schema.fields|
      ensures Unpack(schema, b).value.data[schema.fields[i].name] == Unpack(schema, c).value.data[schema.fields[i].name]
              <==> (b == c || !KeepsView(schema, i))
    {
      FieldAlike(schema, i, b, c);
    }
    SameRecord(Unpack(schema, b).value, Unpack(schema, c).value);
  }

  lemma FieldAlike(schema: Schema, i: nat, b: bytes, c: bytes)
    requires Covered(schema) && Size(schema) <= |b| && Size(schema) <= |c| && b[..Size(schema)] == c[..Size(schema)]
    requires i < |schema.fields|
    ensures Unpack(schema, b).Some? && Unpack(schema, b).value.Rec? && Unpack(schema, c).Some? && Unpack(schema, c).value.Rec?
    ensures var name := schema.fields[i].name;
            && name in Unpack(schema, b).value.data && name in Unpack(schema, c).value.data
            && (Unpack(schema, b).value.data[name] == Unpack(schema, c).value.data[name] <==> (b == c || !KeepsView(schema, i)))
  {
    hide Unpack, Covered;
    FieldIs(schema, i, b);
    FieldIs(schema, i, c);
    if Hooked(schema, i) {
      HookedFirst(schema, i, b, c);
    } else if schema.fields[i].kind.Custom? {
      CustomIs(schema, i);
    } else {
      FieldSizeLocal(schema, i, b, c);
    }
  }

  /** The hook's byte belongs to the record. */
  lemma HookedFirst(schema: Schema, i: nat, b: bytes, c: bytes)
    requires Covered(schema) && i < |schema.fields| && Hooked(schema, i)
    requires Size(schema) <= |b| && Size(schema) <= |c| && b[..Size(schema)] == c[..Size(schema)]
    ensures b != [] && c != [] && b[0] == c[0]
  {
    var fs := schema.fields;
    var k :| 0 <= k < |fs| && IsSigningKey(fs, k);
    OffsetMonotone(fs, 0, k + 1);
    assert b[0] == b[..Size(schema)][0] && c[0] == c[..Size(schema)][0];
  }

  lemma CustomIs(schema: Schema, i: nat)
    requires Covered(schema) && i < |schema.fields| && schema.fields[i].kind.Custom?
    ensures schema.fields[i].kind == Custom(0)
  {
    assert CoveredAt(schema, i);
    assert CoveredKind(schema.fields[i].kind, After(schema.fields, i));
  }

  lemma FieldSizeLocal(schema: Schema, i: nat, b: bytes, c: bytes)
    requires Covered(schema) && Size(schema) <= |b| && Size(schema) <= |c| && b[..Size(schema)] == c[..Size(schema)]
    requires i < |schema.fields| && !schema.fields[i].kind.Custom?
    ensures ReadKind(schema.fields[i].kind, b, Offset(schema.fields, i)) == ReadKind(schema.fields[i].kind, c, Offset(schema.fields, i))
  {
    assert CoveredAt(schema, i);
    assert CoveredKind(schema.fields[i].kind, After(schema.fields, i));
    OffsetMonotone(schema.fields, i + 1, |schema.fields|);
    ReadKindLocal(schema.fields[i].kind, b, c, Offset(schema.fields, i), Size(schema));
  }

  /** The last byte of the record belongs to a number or a block, so a shorter buffer is refused. */
  predicate Closed(schema: Schema) {
    && schema.fields != []
    && match schema.fields[|schema.fields| - 1].kind
       case UInt(w) => w > 0
       case Block(n) => n > 0
       case Sub(s) => Closed(s) && Size(s) > 0
       case _ => false
  }

  lemma {:induction false} UnpackReadsLast(schema: Schema, i: nat, buffer: bytes, data: map<string, Value>)
    requires i < |schema.fields| && UnpackFrom(schema, i, buffer, Offset(schema.fields, i), data).Some?
    ensures ReadKind(schema.fields[|schema.fields| - 1].kind, buffer, Offset(schema.fields, |schema.fields| - 1)).Some?
    decreases |schema.fields| - i
  {
    hide ReadKind, SetField;
    if i + 1 < |schema.fields| {
      var Field(name, kind) := schema.fields[i];
      var value := ReadKind(kind, buffer, Offset(schema.fields, i)).value;
      UnpackReadsLast(schema, i + 1, buffer, SetField(schema.fields, data, name, value).value);
    }
  }

  lemma {:induction false} UnpackNeedsSize(schema: Schema, buffer: bytes)
    requires Closed(schema) && Unpack(schema, buffer).Some?
    ensures Size(schema) <= |buffer|
    decreases schema
  {
    var last := |schema.fields| - 1;
    UnpackReadsLast(schema, 0, buffer, map[]);
    if schema.fields[last].kind.Sub? {
      var s := schema.fields[last].kind.schema;
      var at := Offset(schema.fields, last);
      assert ReadKind(schema.fields[last].kind, buffer, at) == Unpack(s, Slice(buffer, at, at + Size(s)));
      UnpackNeedsSize(s, Slice(buffer, at, at + Size(s)));
    }
    assert Size(schema) == Offset(schema.fields, last) + KindSize(schema.fields[last].kind);
  }

  /** A plain record of numbers, blocks and such records, ending in one of them. */
  predicate Solid(schema: Schema)
    decreases schema
  {
    && schema.hook.Plain? && Covered(schema) && BooleanFree(schema) && Closed(schema)
    && forall i | 0 <= i < |schema.fields| :: SolidKind(schema.fields[i].kind)
  }

  predicate SolidKind(kind: Kind) {
    match kind
    case UInt(_) => true
    case Block(_) => true
    case Sub(s) => Solid(s)
    case _ => false
  }

  function Sum(sizes: seq<nat>, n: nat): nat
    requires n <= |sizes|
  {
    if n == 0 then 0 else Sum(sizes, n - 1) + sizes[n - 1]
  }

  lemma OffsetStep(fields: seq<Field>, n: nat)
    requires 0 < n <= |fields|
    ensures Offset(fields, n) == Offset(fields, n - 1) + KindSize(fields[n - 1].kind)
  {
  }

  lemma NoOffset(fields: seq<Field>)
    ensures Offset(fields, 0) == 0
  {
  }

  lemma {:induction false} SumPrefix(sizes: seq<nat>, more: seq<nat>, n: nat)
    requires n <= |sizes|
    ensures Sum(sizes + more, n) == Sum(sizes, n)
  {
    if n > 0 {
      SumPrefix(sizes, more, n - 1);
    }
  }

  lemma {:induction false} OffsetPrefix(fields: seq<Field>, more: seq<Field>, n: nat)
    requires n <= |fields|
    ensures Offset(fields + more, n) == Offset(fields, n)
  {
    if n > 0 {
      OffsetPrefix(fields, more, n - 1);
    }
  }

  /** The offsets of a table whose field widths are listed. */
  lemma {:induction false} OffsetIsSum(fields: seq<Field>, sizes: seq<nat>, n: nat)
    requires |sizes| == |fields| && n <= |fields|
    requires forall i | 0 <= i < |fields| :: KindSize(fields[i].kind) == sizes[i]
    ensures Offset(fields, n) == Sum(sizes, n)
  {
    if n > 0 {
      OffsetIsSum(fields, sizes, n - 1);
    }
  }

  /** A list of the places where fields from number `i` to `n` start and end. */
  predicate Places(fields: seq<Field>, places: seq<nat>, i: nat, n: nat)
    requires i <= n <= |fields| && |places| == |fields| + 1
  {
    forall k | i <= k < n :: places[k + 1] == places[k] + KindSize(fields[k].kind)
  }

  lemma {:induction false} OffsetIsPlace(fields: seq<Field>, places: seq<nat>, n: nat)
    requires n <= |fields| && |places| == |fields| + 1 && places[0] == 0 && Places(fields, places, 0, n)
    ensures Offset(fields, n) == places[n]
  {
    hide KindSize;
    if n > 0 {
      OffsetIsPlace(fields, places, n - 1);
    }
  }

  lemma PlacesOn(fields: seq<Field>, places: seq<nat>, i: nat, j: nat, n: nat)
    requires i <= j <= n <= |fields| && |places| == |fields| + 1
    requires Places(fields, places, i, j) && Places(fields, places, j, n)
    ensures Places(fields, places, i, n)
  {
    hide KindSize;
  }

  /** A table of numbers, blocks and solid records whose widths are the listed ones. */
  predicate FlatTable(fields: seq<Field>, sizes: seq<nat>) {
    && |sizes| == |fields| > 0
    && forall i | 0 <= i < |fields| ::
         && KindSize(fields[i].kind) == sizes[i] > 0
         && match fields[i].kind
            case Flag(_) => false
            case Custom(_) => false
            case Sub(s) => Solid(s)
            case _ => true
  }

  lemma FlatTableSolid(schema: Schema, sizes: seq<nat>)
    requires schema.hook.Plain? && FlatTable(schema.fields, sizes) && UniqueNames(schema.fields)
    ensures Solid(schema) && Size(schema) == Sum(sizes, |sizes|)
  {
    TableCovers(schema);
    OffsetIsSum(schema.fields, sizes, |sizes|);
  }

  /** A table whose last field has a width covers all its booleans. */
  lemma TableCovers(schema: Schema)
    requires var fs := schema.fields;
             && fs != [] && KindSize(fs[|fs| - 1].kind) > 0
             && UniqueNames(fs)
             && forall i | 0 <= i < |fs| :: match fs[i].kind
                                            case Custom(n) => n == 0
                                            case Sub(s) => Covered(s)
                                            case _ => true
    requires HookCovered(schema)
    ensures Covered(schema)
  {
    var fs := schema.fields;
    forall i | 0 <= i < |fs| ensures CoveredAt(schema, i) {
      if i + 1 < |fs| {
        OffsetMonotone(fs, i + 1, |fs| - 1);
      }
    }
  }

  /** A field as its class leaves it once it has been set: a number in range, a boolean, a block of its size,
      a record of the very class named. */
  ghost predicate TypedAt(record: Value, i: nat)
    requires record.Rec? && i < |record.schema.fields|
    decreases record, 0
  {
    var Field(name, kind) := record.schema.fields[i];
    && name in record.data
    && var value := record.data[name];
       match kind
       case UInt(w) => value.Int? && 0 <= value.n < Pow256(w)
       case Flag(_) => value.Bool?
       case Block(n) => value.Blob? && |value.bytes| == n
       case Custom(_) => false
       case Sub(s) => value.Rec? && value.schema == s && Typed(value)
  }

  ghost predicate Typed(record: Value)
    requires record.Rec?
    decreases record, 1
  {
    && record.schema.hook.Plain?
    && record.data.Keys == NamesFrom(record.schema.fields, 0)
    && forall i | 0 <= i < |record.schema.fields| :: TypedAt(record, i)
  }

  /** A boolean equals its bit of the byte that follows it. */
  predicate FlagsAgreeAt(record: Value, i: nat)
    requires record.Rec? && i < |record.schema.fields|
    decreases record, 0
  {
    var Field(name, kind) := record.schema.fields[i];
    match kind
    case Flag(index) =>
      var after := EncodeFrom(record, i + 1);
      name in record.data && after != [] && record.data[name] == Bool(Bit(after[0], index))
    case Sub(_) => name in record.data && record.data[name].Rec? && FlagsAgree(record.data[name])
    case _ => true
  }

  predicate FlagsAgree(record: Value)
    requires record.Rec?
    decreases record, 1
  {
    forall i | 0 <= i < |record.schema.fields| :: FlagsAgreeAt(record, i)
  }

  lemma {:induction false} TypedFits(record: Value)
    requires record.Rec? && Typed(record)
    ensures Fits(record)
    decreases record
  {
    forall i | 0 <= i < |record.schema.fields| ensures FitsAt(record, i) {
      assert TypedAt(record, i);
      if record.schema.fields[i].kind.Sub? {
        TypedFits(record.data[record.schema.fields[i].name]);
      }
    }
  }

  lemma EncodeKindLength(record: Value, i: nat)
    requires record.Rec? && Fits(record) && i < |record.schema.fields|
    ensures |EncodeKind(record, record.schema.fields[i].name, record.schema.fields[i].kind)| == KindSize(record.schema.fields[i].kind)
  {
    EncodeLength(record, i);
    EncodeLength(record, i + 1);
  }

  lemma {:induction false} EncodeSuffix(record: Value, i: nat, tail: bytes)
    requires record.Rec? && Fits(record) && i <= |record.schema.fields|
    ensures Offset(record.schema.fields, i) <= |Encode(record) + tail|
    ensures (Encode(record) + tail)[Offset(record.schema.fields, i)..] == EncodeFrom(record, i) + tail
    decreases i, 0
  {
    if i > 0 {
      FieldPlace(record, i - 1, tail);
    }
  }

  lemma {:induction false} FieldPlace(record: Value, i: nat, tail: bytes)
    requires record.Rec? && Fits(record) && i < |record.schema.fields|
    ensures var Field(name, kind) := record.schema.fields[i];
            var at := Offset(record.schema.fields, i);
            var buffer := Encode(record) + tail;
            && at + KindSize(kind) <= |buffer|
            && buffer[at..at + KindSize(kind)] == EncodeKind(record, name, kind)
            && buffer[at + KindSize(kind)..] == EncodeFrom(record, i + 1) + tail
    decreases i, 1
  {
    var Field(name, kind) := record.schema.fields[i];
    EncodeSuffix(record, i, tail);
    EncodeKindLength(record, i);
    var encoded, rest := EncodeKind(record, name, kind), EncodeFrom(record, i + 1);
    assert (encoded + rest) + tail == encoded + (rest + tail);
    Cut(Encode(record) + tail, Offset(record.schema.fields, i), encoded, rest + tail);
  }

  lemma ReadNumber(n: nat, w: nat, buffer: bytes, at: nat)
    requires n < Pow256(w) && at + w <= |buffer| && buffer[at..at + w] == Le(n, w)
    ensures ReadKind(UInt(w), buffer, at) == Some(Int(n))
  {
    hide Le, UnLe, Pow256;
    UnLeLe(n, w);
  }

  lemma ReadFlag(index: nat, buffer: bytes, at: nat, after: bytes, tail: bytes)
    requires at <= |buffer| && buffer[at..] == after + tail && after != []
    ensures ReadKind(Flag(index), buffer, at) == Some(Bool(Bit(after[0], index)))
  {
    hide Bit;
    assert buffer[at] == buffer[at..][0];
  }

  lemma ReadBlock(data: bytes, buffer: bytes, at: nat)
    requires at + |data| <= |buffer| && buffer[at..at + |data|] == data
    ensures ReadKind(Block(|data|), buffer, at) == Some(Blob(data))
  {
  }

  lemma ReadSub(schema: Schema, buffer: bytes, at: nat)
    requires at + Size(schema) <= |buffer|
    ensures ReadKind(Sub(schema), buffer, at) == Unpack(schema, buffer[at..at + Size(schema)])
  {
    hide Unpack, Offset;
  }

  /** A set field reads back from its place in a buffer exactly when its booleans agree with the bytes after it. */
  lemma {:induction false} ReadTyped(record: Value, i: nat, buffer: bytes, at: nat, tail: bytes)
    requires record.Rec? && i < |record.schema.fields| && TypedAt(record, i) && Covered(record.schema)
    requires var Field(name, kind) := record.schema.fields[i];
             && at + KindSize(kind) <= |buffer|
             && buffer[at..at + KindSize(kind)] == EncodeKind(record, name, kind)
             && buffer[at + KindSize(kind)..] == EncodeFrom(record, i + 1) + tail
             && (kind.Flag? ==> EncodeFrom(record, i + 1) != [])
    ensures FlagsAgreeAt(record, i) <==>
              ReadKind(record.schema.fields[i].kind, buffer, at) == Some(record.data[record.schema.fields[i].name])
    decreases record, 0
  {
    hide ReadKind, Unpack, Encode, EncodeFrom, Covered, Pow256, Le, Bit, Offset;
    var Field(name, kind) := record.schema.fields[i];
    match kind
    case UInt(w) => ReadNumber(record.data[name].n, w, buffer, at);
    case Flag(index) => ReadFlag(index, buffer, at, EncodeFrom(record, i + 1), tail);
    case Block(n) => ReadBlock(record.data[name].bytes, buffer, at);
    case Sub(s) =>
      SubCovered(record.schema, i);
      UnpackPack(record.data[name], []);
      assert Encode(record.data[name]) + [] == Encode(record.data[name]);
      ReadSub(s, buffer, at);
  }

  lemma SubCovered(schema: Schema, i: nat)
    requires Covered(schema) && i < |schema.fields| && schema.fields[i].kind.Sub?
    ensures Covered(schema.fields[i].kind.schema)
  {
    assert CoveredAt(schema, i);
    assert CoveredKind(schema.fields[i].kind, After(schema.fields, i));
  }

  lemma {:induction false} ReadTypedAt(record: Value, i: nat, tail: bytes)
    requires record.Rec? && Typed(record) && Covered(record.schema) && i < |record.schema.fields|
    ensures TypedAt(record, i) && !record.schema.fields[i].kind.Custom?
    ensures FlagsAgreeAt(record, i) <==>
              ReadKind(record.schema.fields[i].kind, Encode(record) + tail, Offset(record.schema.fields, i))
              == Some(record.data[record.schema.fields[i].name])
    decreases record, 1
  {
    assert TypedAt(record, i) && CoveredAt(record.schema, i);
    TypedFits(record);
    FieldPlace(record, i, tail);
    EncodeLength(record, i + 1);
    assert CoveredKind(record.schema.fields[i].kind, After(record.schema.fields, i));
    ReadTyped(record, i, Encode(record) + tail, Offset(record.schema.fields, i), tail);
  }

  /** Unpacking a packed record gives the record back exactly when its booleans say what the bytes after them say. */
  lemma {:induction false} UnpackPack(record: Value, tail: bytes)
    requires record.Rec? && Typed(record) && Covered(record.schema)
    ensures Pack(record) == Some(Encode(record)) && |Encode(record)| == Size(record.schema)
    ensures Unpack(record.schema, Encode(record) + tail) == Some(record) <==> FlagsAgree(record)
    decreases record, 2
  {
    TypedFits(record);
    PackIsEncode(record);
    UnpackHolds(record.schema, Encode(record) + tail);
    var got := Unpack(record.schema, Encode(record) + tail).value;
    forall i | 0 <= i < |record.schema.fields|
      ensures TypedAt(record, i)
      ensures got.data[record.schema.fields[i].name] == record.data[record.schema.fields[i].name] <==> FlagsAgreeAt(record, i)
    {
      assert HoldsButHookAt(got, i, Encode(record) + tail);
      ReadTypedAt(record, i, tail);
    }
    SameRecord(got, record);
  }

  lemma SameRecord(r: Value, q: Value)
    requires r.Rec? && q.Rec? && r.schema == q.schema && r.data.Keys == q.data.Keys == NamesFrom(r.schema.fields, 0)
    ensures r == q <==> forall i | 0 <= i < |r.schema.fields| ::
                          r.data[r.schema.fields[i].name] == q.data[r.schema.fields[i].name]
  {
    assert r == q <==> r.data == q.data;
  }

  predicate BooleanFree(schema: Schema) {
    forall i | 0 <= i < |schema.fields| ::
      match schema.fields[i].kind
      case Flag(_) => false
      case Sub(s) => BooleanFree(s)
      case _ => true
  }

  lemma {:induction false} BooleanFreeAgrees(record: Value)
    requires record.Rec? && Typed(record) && BooleanFree(record.schema)
    ensures FlagsAgree(record)
    decreases record
  {
    forall i | 0 <= i < |record.schema.fields| ensures FlagsAgreeAt(record, i) {
      assert TypedAt(record, i);
      if record.schema.fields[i].kind.Sub? {
        BooleanFreeAgrees(record.data[record.schema.fields[i].name]);
      }
    }
  }

  /** Records without booleans always come back. */
  lemma UnpackPackBooleanFree(record: Value, tail: bytes)
    requires record.Rec? && Typed(record) && Covered(record.schema) && BooleanFree(record.schema)
    ensures Pack(record) == Some(Encode(record)) && |Encode(record)| == Size(record.schema)
    ensures Unpack(record.schema, Encode(record) + tail) == Some(record)
  {
    UnpackPack(record, tail);
    BooleanFreeAgrees(record);
  }

  /** A covered class without fields of its own code, down to its records. */
  predicate CustomFree(schema: Schema)
    decreases schema
  {
    && schema.hook.Plain? && Covered(schema)
    && forall i | 0 <= i < |schema.fields| :: CustomFreeKind(schema.fields[i].kind)
  }

  predicate CustomFreeKind(kind: Kind) {
    match kind
    case Custom(_) => false
    case Sub(s) => CustomFree(s)
    case _ => true
  }

  lemma {:induction false} SolidCustomFree(schema: Schema)
    requires Solid(schema)
    ensures CustomFree(schema)
    decreases schema
  {
    forall i | 0 <= i < |schema.fields| ensures CustomFreeKind(schema.fields[i].kind) {
      assert SolidKind(schema.fields[i].kind);
      if schema.fields[i].kind.Sub? {
        SolidCustomFree(schema.fields[i].kind.schema);
      }
    }
  }

  lemma {:induction false} ReadKindTyped(schema: Schema, i: nat, buffer: bytes, at: nat, record: Value)
    requires CustomFree(schema) && i < |schema.fields| && at + KindSize(schema.fields[i].kind) <= |buffer|
    requires record.Rec? && record.schema == schema && schema.fields[i].name in record.data
    requires ReadKind(schema.fields[i].kind, buffer, at) == Some(record.data[schema.fields[i].name])
    ensures TypedAt(record, i)
    decreases schema, 0
  {
    hide Covered, Unpack, Typed;
    assert CustomFreeKind(schema.fields[i].kind);
    if schema.fields[i].kind.Sub? {
      UnpackTyped(schema.fields[i].kind.schema, Slice(buffer, at, at + KindSize(schema.fields[i].kind)));
    }
  }

  /** What `unpack` yields is a record with every field set to a value of its kind, booleans and nested records included. */
  lemma {:induction false} UnpackTyped(schema: Schema, buffer: bytes)
    requires CustomFree(schema) && Size(schema) <= |buffer|
    ensures Unpack(schema, buffer).Some? && Unpack(schema, buffer).value.Rec?
    ensures Unpack(schema, buffer).value.schema == schema && Typed(Unpack(schema, buffer).value)
    decreases schema, 1
  {
    hide ReadKind, TypedAt, Covered;
    UnpackHolds(schema, buffer);
    var r := Unpack(schema, buffer).value;
    forall i | 0 <= i < |schema.fields| ensures TypedAt(r, i) {
      FieldIs(schema, i, buffer);
      OffsetMonotone(schema.fields, i + 1, |schema.fields|);
      ReadKindTyped(schema, i, buffer, Offset(schema.fields, i), r);
    }
  }

  // ----- a record that does not come back

  /** A boolean and the byte that covers it. */
  const FLAG_SCHEMA := Schema([Field("flag", Flag(0)), Field("byte", UInt(1))], Plain)

  /** Set to true over a zero byte, it packs to that byte and comes back false. */
  lemma DisagreeingFlag()
    ensures var record := Rec(FLAG_SCHEMA, map["flag" := Bool(true), "byte" := Int(0)]);
            Typed(record) && Covered(FLAG_SCHEMA) && Pack(record) == Some([0]) && Unpack(FLAG_SCHEMA, [0]) != Some(record)
  {
    hide Pack, Unpack;
    var record := Rec(FLAG_SCHEMA, map["flag" := Bool(true), "byte" := Int(0)]);
    FlagCovered();
    FlagTyped(record);
    FlagEncodes(record);
    UnpackPack(record, []);
    assert Encode(record) + [] == Encode(record);
  }

  lemma FlagCovered()
    ensures Covered(FLAG_SCHEMA) && Size(FLAG_SCHEMA) == 1
  {
    var fs := FLAG_SCHEMA.fields;
    assert KindSize(fs[0].kind) == 0 && KindSize(fs[1].kind) == 1;
    assert Offset(fs, 1) == 0 && Offset(fs, 2) == 1;
    assert fs[0].name != fs[1].name;
    assert CoveredAt(FLAG_SCHEMA, 0) && CoveredAt(FLAG_SCHEMA, 1);
  }

  lemma FlagTyped(record: Value)
    requires record == Rec(FLAG_SCHEMA, map["flag" := Bool(true), "byte" := Int(0)])
    ensures Typed(record)
  {
    var fs := FLAG_SCHEMA.fields;
    PowValues();
    assert NamesFrom(fs, 0) == {fs[0].name, fs[1].name};
    assert TypedAt(record, 0) && TypedAt(record, 1);
  }

  lemma FlagEncodes(record: Value)
    requires record == Rec(FLAG_SCHEMA, map["flag" := Bool(true), "byte" := Int(0)])
    ensures Encode(record) == [0] && !FlagsAgree(record)
  {
    assert Le(0, 1) == [0] + Le(0, 0);
    assert EncodeFrom(record, 2) == [];
    assert EncodeFrom(record, 1) == Le(0, 1) + [] == [0];
    assert EncodeFrom(record, 0) == [] + [0];
    assert !Bit(0, 0);
    assert !FlagsAgreeAt(record, 0);
  }

  // ----- the class itself

  /** A record object. Records nested in it are held as values. */
  class Record {
    const schema: Schema
    var data: map<string, Value>

    function Snapshot(): Value
      reads this
    {
      Rec(schema, data)
    }

    constructor (schema: Schema)
      ensures this.schema == schema && data == map[]
    {
      this.schema := schema;
      data := map[];
    }

    /** False when the original throws "invalid value". */
    method Set(name: string, value: Value) returns (ok: bool)
      modifies this
      ensures ok <==> SetField(schema.fields, old(data), name, value).Some?
      ensures data == if ok then SetField(schema.fields, old(data), name, value).value else old(data)
    {
      for i := 0 to |schema.fields|
        invariant IndexOf(schema.fields, name, 0) == IndexOf(schema.fields, name, i)
        invariant data == old(data)
      {
        if schema.fields[i].name == name {
          if !Safe(value, schema.fields[i].kind) {
            return false;
          }
          data := data[name := value];
          return true;
        }
      }
      return true;
    }

    method PackSelf() returns (r: Option<bytes>)
      ensures r == Pack(Snapshot())
    {
      r := PackValue(Snapshot());
    }

    static method PackValue(record: Value) returns (r: Option<bytes>)
      requires record.Rec?
      ensures r == Pack(record)
      decreases record, 1
    {
      var fields := record.schema.fields;
      var buffer := new byte[Size(record.schema)](_ => 0);
      var offset: nat := 0;
      assert buffer[..] == Zeros(Size(record.schema));
      for i := 0 to |fields|
        invariant Pack(record) == PackFrom(record, i, buffer[..], offset)
      {
        var ok := WriteField(record, fields[i].name, fields[i].kind, buffer, offset);
        if !ok { return None; }
        offset := offset + Advance(fields[i].kind, record, fields[i].name);
      }
      r := Some(buffer[..]);
    }

    /** One turn of the packing loop: the `switch` on the field type. */
    static method WriteField(record: Value, name: string, kind: Kind, buffer: array<byte>, offset: nat) returns (ok: bool)
      requires record.Rec?
      modifies buffer
      ensures ok <==> WriteKind(kind, record, name, old(buffer[..]), offset).Some?
      ensures ok ==> WriteKind(kind, record, name, old(buffer[..]), offset) == Some(buffer[..])
      decreases record, 0
    {
      var has := name in record.data;
      match kind {
        case UInt(w) =>
          ok := Store(buffer, offset, Le(if has && record.data[name].Int? then record.data[name].n else 0, w));
        case Flag(_) =>
          ok := true;
        case Block(n) =>
          ok := Store(buffer, offset, if has then Copied(record.data[name]) else Zeros(n));
        case Custom(n) =>
          ok := has;
          if ok {
            ok := Store(buffer, offset, Copied(record.data[name]));
          }
        case Sub(_) =>
          ok := has && record.data[name].Rec?;
          if ok {
            var inner := PackValue(record.data[name]);
            ok := inner.Some?;
            if ok {
              ok := Store(buffer, offset, inner.value);
            }
          }
      }
    }

    static method UnpackNew(schema: Schema, buffer: bytes) returns (r: Option<Record>)
      ensures r.Some? <==> Unpack(schema, buffer).Some?
      ensures r.Some? ==> fresh(r.value) && r.value.Snapshot() == Unpack(schema, buffer).value
      decreases schema, 1
    {
      hide ReadKind, Safe;
      var out := new Record(schema);
      var offset: nat := 0;
      for i := 0 to |schema.fields|
        invariant out.schema == schema && fresh(out)
        invariant UnpackFrom(schema, 0, buffer, 0, map[]) == UnpackFrom(schema, i, buffer, offset, out.data)
      {
        var Field(name, kind) := schema.fields[i];
        var value := ReadField(kind, buffer, offset);
        if value.None? { return None; }
        var ok := out.Set(name, value.value);
        if !ok { return None; }
        offset := offset + KindSize(kind);
      }
      if schema.hook.SigningKey? {
        if "signing_key" !in out.data || !out.data["signing_key"].View? || out.data["signing_key"].bytes == [] { return None; }
        var raw := out.data["signing_key"].bytes[0];
        var ok := out.Set("signing_key", Text(if raw / 4 == 0 then "VCEK" else "VLEK"));
        if !ok { return None; }
      }
      r := Some(out);
    }

    /** One turn of the unpacking loop. */
    static method ReadField(kind: Kind, buffer: bytes, offset: nat) returns (r: Option<Value>)
      ensures r == ReadKind(kind, buffer, offset)
      decreases kind, 0
    {
      match kind {
        case UInt(w) =>
          var n := Get(buffer, offset, w);
          r := if n.Some? then Some(Int(n.value)) else None;
        case Flag(index) =>
          r := if offset < |buffer| then Some(Bool(Bit(buffer[offset], index))) else None;
        case Block(n) =>
          var data := new byte[n](_ => 0);
          for i := 0 to n
            invariant i > 0 ==> offset + i <= |buffer| && data[..i] == buffer[offset..offset + i]
          {
            if offset + i >= |buffer| { return None; }
            data[i] := buffer[offset + i];
          }
          r := Some(Blob(data[..]));
          assert data[..] == data[..n];
        case Custom(n) =>
          r := Some(if n == 0 then View(buffer) else Buffer(Slice(Slice(buffer, offset, |buffer|), 0, n)));
        case Sub(s) =>
          var inner := UnpackNew(s, Slice(buffer, offset, offset + Size(s)));
          r := if inner.Some? then Some(inner.value.Snapshot()) else None;
      }
    }
  }
}
