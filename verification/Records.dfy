/** Reading and writing whole records inside a longer byte string. */
module Records {
  import opened Bytes
  import opened Schema

  /** `value(name)` of a number field. */
  function Num(record: Value, name: string): nat {
    if record.Rec? && name in record.data && record.data[name].Int? && record.data[name].n >= 0 then record.data[name].n else 0
  }

  /** `schema.unpack(data.slice(at, at + size))`. */
  function Take(schema: Schema, data: bytes, at: nat): Option<Value> {
    Unpack(schema, Slice(data, at, at + Size(schema)))
  }

  /** `record?.pack()`; an absent part is filtered out. */
  function PackPart(part: Option<Value>): Option<bytes> {
    match part
    case None => Some([])
    case Some(v) => if v.Rec? then Pack(v) else None
  }

  predicate Sized(schema: Schema) {
    Solid(schema) && Size(schema) > 0
  }

  ghost predicate Made(record: Value, schema: Schema) {
    record.Rec? && record.schema == schema && Typed(record)
  }

  /** Unpacking succeeds exactly when the record fits, and yields a set record that packs to its bytes. */
  lemma UnpackPacks(schema: Schema, data: bytes)
    requires Sized(schema)
    ensures Unpack(schema, data).Some? <==> Size(schema) <= |data|
    ensures Unpack(schema, data).Some? ==>
              PackPart(Unpack(schema, data)) == Some(data[..Size(schema)]) && Made(Unpack(schema, data).value, schema)
  {
    if Unpack(schema, data).Some? {
      UnpackNeedsSize(schema, data);
    }
    if Size(schema) <= |data| {
      PackUnpack(schema, data);
      SolidCustomFree(schema);
      UnpackTyped(schema, data);
    }
  }

  /** A record taken from the data packs back to the very bytes it was taken from. */
  lemma TakePacks(schema: Schema, data: bytes, at: nat)
    requires Sized(schema) && Take(schema, data, at).Some?
    ensures at + Size(schema) <= |data|
    ensures PackPart(Take(schema, data, at)) == Some(data[at..at + Size(schema)])
    ensures Take(schema, data, at).value.Rec? && Take(schema, data, at).value.schema == schema
  {
    UnpackNeedsSize(schema, Slice(data, at, at + Size(schema)));
    PackUnpack(schema, data[at..at + Size(schema)]);
    assert data[at..at + Size(schema)][..Size(schema)] == data[at..at + Size(schema)];
  }

  lemma MadePacks(record: Value, schema: Schema)
    requires Sized(schema) && Made(record, schema)
    ensures PackPart(Some(record)) == Some(Encode(record)) && |Encode(record)| == Size(schema)
  {
    UnpackPackBooleanFree(record, []);
  }

  /** A record laid into the data is read back from its place. */
  lemma TakeMade(record: Value, schema: Schema, data: bytes, at: nat)
    requires Sized(schema) && Made(record, schema)
    requires at + Size(schema) <= |data| && data[at..at + Size(schema)] == Encode(record)
    ensures Take(schema, data, at) == Some(record)
  {
    UnpackPackBooleanFree(record, []);
    assert Encode(record) + [] == Encode(record);
  }

  lemma UnpackMade(record: Value, schema: Schema, data: bytes)
    requires Sized(schema) && Made(record, schema)
    requires Size(schema) <= |data| && data[..Size(schema)] == Encode(record)
    ensures Unpack(schema, data) == Some(record)
  {
    UnpackPackBooleanFree(record, data[Size(schema)..]);
    assert Encode(record) + data[Size(schema)..] == data;
  }
}
