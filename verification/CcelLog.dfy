/** The CCEL event log: `CcelEventLog.unpack` and `CcelEventLog.pack` (types.js). */
module CcelLog {
  import opened Bytes
  import opened Schema
  import opened Records

  const EVENT_HEADER := Schema(
    [
      Field("pcr_index", UInt(4)),
      Field("event_type", UInt(4)),
      Field("digest", Block(20)),
      Field("event_data_size", UInt(4))
    ], Plain)

  const SPEC_HEADER := Schema(
    [
      Field("signature", Block(16)),
      Field("platform_class", UInt(4)),
      Field("spec_version_minor", UInt(1)),
      Field("spec_version_major", UInt(1)),
      Field("spec_version_errata", UInt(1)),
      Field("uint8_size", UInt(1)),
      Field("number_of_algorithms", UInt(4))
    ], Plain)

  const ALGORITHM_SIZE := Schema(
    [
      Field("algorithm_id", UInt(2)),
      Field("digest_size", UInt(2))
    ], Plain)

  const EVENT2_HEADER := Schema(
    [
      Field("pcr_index", UInt(4)),
      Field("event_type", UInt(4)),
      Field("digest_count", UInt(4))
    ], Plain)

  datatype Digest = Digest(algorithm: nat, bytes: bytes)

  datatype Event = Event(pcrIndex: nat, eventType: nat, digests: seq<Digest>, eventSize: nat, eventData: bytes, rtmr: int)

  datatype Spec = Spec(header: Value, specHeader: Value, algorithms: seq<Value>, vendorInfo: bytes, rawEventData: bytes)

  /** A log without a specification event is what empty data unpacks to. */
  datatype Log = Log(spec: Option<Spec>, events: seq<Event>)

  const TERMINATOR := 0xffff_ffff

  /** The event types that have a name; all others are refused. */
  predicate KnownEventType(value: nat) {
    value <= 1 || 3 <= value <= 0x0c || 0x0f <= value <= 0x12
    || 0x80000000 <= value <= 0x8000000b || value == 0x80000010 || 0x800000e0 <= value <= 0x800000e2
  }

  // ----- unpack

  /** The digest size of each algorithm; a later entry replaces an earlier one. */
  function SizeMap(algorithms: seq<Value>): map<nat, nat> {
    if algorithms == [] then map[]
    else
      var last := algorithms[|algorithms| - 1];
      SizeMap(algorithms[..|algorithms| - 1])[Num(last, "algorithm_id") := Num(last, "digest_size")]
  }

  function UnpackAlgorithms(spec: bytes, at: nat, count: nat): Option<seq<Value>>
    decreases count
  {
    if count == 0 then Some([])
    else
      var head :- Unpack(ALGORITHM_SIZE, Slice(spec, at, |spec|));
      var rest :- UnpackAlgorithms(spec, at + 4, count - 1);
      Some([head] + rest)
  }

  function UnpackSpec(data: bytes, header: Value): Option<Spec> {
    var spec := Slice(data, 32, 32 + Num(header, "event_data_size"));
    var specHeader :- Unpack(SPEC_HEADER, spec);
    var count := Num(specHeader, "number_of_algorithms");
    var algorithms :- UnpackAlgorithms(spec, 28, count);
    var vendorSize :- Get(spec, 28 + 4 * count, 1);
    var vendorAt := 28 + 4 * count + 1;
    Some(Spec(header, specHeader, algorithms, Slice(spec, vendorAt, vendorAt + vendorSize), spec))
  }

  function UnpackDigests(data: bytes, at: nat, count: nat, sizes: map<nat, nat>): Option<(seq<Digest>, nat)>
    decreases count
  {
    if count == 0 then Some(([], at))
    else
      var id :- Get(data, at, 2);
      if id !in sizes then None
      else
        var next := at + 2 + sizes[id];
        var rest :- UnpackDigests(data, next, count - 1, sizes);
        Some(([Digest(id, Slice(data, at + 2, next))] + rest.0, rest.1))
  }

  /** One event after its header has been read, and the offset behind it. */
  function UnpackEvent(data: bytes, at: nat, header: Value, sizes: map<nat, nat>): Option<(Event, nat)> {
    var digests :- UnpackDigests(data, at + 12, Num(header, "digest_count"), sizes);
    var size :- Get(data, digests.1, 4);
    var dataAt := digests.1 + 4;
    if !KnownEventType(Num(header, "event_type")) then None
    else
      var pcr := Num(header, "pcr_index");
      Some((Event(pcr, Num(header, "event_type"), digests.0, size, Slice(data, dataAt, dataAt + size), pcr - 1), dataAt + size))
  }

  lemma {:induction false} DigestsEnd(data: bytes, at: nat, count: nat, sizes: map<nat, nat>)
    requires UnpackDigests(data, at, count, sizes).Some?
    ensures at <= UnpackDigests(data, at, count, sizes).value.1
    ensures |UnpackDigests(data, at, count, sizes).value.0| == count
    decreases count
  {
    if count > 0 {
      var id := Get(data, at, 2).value;
      DigestsEnd(data, at + 2 + sizes[id], count - 1, sizes);
    }
  }

  function UnpackEvents(data: bytes, at: nat, sizes: map<nat, nat>): Option<seq<Event>>
    decreases |data| - at
  {
    if at >= |data| then Some([])
    else
      var header :- Unpack(EVENT2_HEADER, Slice(data, at, |data|));
      if Num(header, "pcr_index") == TERMINATOR then Some([])
      else
        var head :- UnpackEvent(data, at, header, sizes);
        DigestsEnd(data, at + 12, Num(header, "digest_count"), sizes);
        var rest :- UnpackEvents(data, head.1, sizes);
        Some([head.0] + rest)
  }

  /** `unpack`; nothing when it throws. */
  function UnpackLog(data: bytes): Option<Log> {
    if data == [] then Some(Log(None, []))
    else
      var header :- Unpack(EVENT_HEADER, data);
      var spec :- UnpackSpec(data, header);
      var events :- UnpackEvents(data, 32 + Num(header, "event_data_size"), SizeMap(spec.algorithms));
      Some(Log(Some(spec), events))
  }

  // ----- pack

  function PackAlgorithms(algorithms: seq<Value>): Option<bytes> {
    if algorithms == [] then Some([])
    else
      var head :- PackPart(Some(algorithms[0]));
      var rest :- PackAlgorithms(algorithms[1..]);
      Some(head + rest)
  }

  function PackSpecData(spec: Spec): Option<bytes> {
    var specHeader :- PackPart(Some(spec.specHeader));
    var algorithms :- PackAlgorithms(spec.algorithms);
    Some(specHeader + algorithms + Le(|spec.vendorInfo|, 1) + spec.vendorInfo)
  }

  function EncodeDigests(digests: seq<Digest>): bytes {
    if digests == [] then []
    else Le(digests[0].algorithm, 2) + digests[0].bytes + EncodeDigests(digests[1..])
  }

  /** A fresh event header with its three fields set. */
  function MakeHeader(pcr: nat, eventType: nat, count: nat): Option<Value> {
    var d :- SetField(EVENT2_HEADER.fields, map[], "pcr_index", Int(pcr));
    var e :- SetField(EVENT2_HEADER.fields, d, "event_type", Int(eventType));
    var f :- SetField(EVENT2_HEADER.fields, e, "digest_count", Int(count));
    Some(Rec(EVENT2_HEADER, f))
  }

  function PackEvent(e: Event): Option<bytes> {
    var header :- MakeHeader(e.pcrIndex, e.eventType, |e.digests|);
    var packed :- PackPart(Some(header));
    Some(packed + EncodeDigests(e.digests) + Le(|e.eventData|, 4) + e.eventData)
  }

  function PackEvents(events: seq<Event>): Option<bytes> {
    if events == [] then Some([])
    else
      var head :- PackEvent(events[0]);
      var rest :- PackEvents(events[1..]);
      Some(head + rest)
  }

  /** `pack` first stores the size of the specification event in its header: the log afterwards, and the bytes. */
  function PackLog(log: Log): Option<(Log, bytes)> {
    var spec :- log.spec;
    var specData :- PackSpecData(spec);
    var header' :- SetSize(spec.header, |specData|);
    var packed :- PackPart(Some(header'));
    var events :- PackEvents(log.events);
    Some((Log(Some(spec.(header := header')), log.events), packed + specData + events))
  }

  function SetSize(header: Value, size: nat): Option<Value> {
    if !header.Rec? then None
    else
      var data :- SetField(header.schema.fields, header.data, "event_data_size", Int(size));
      Some(Rec(header.schema, data))
  }

  // ----- the tables

  const EVENT_HEADER_WIDTHS: seq<nat> := [4, 4, 20, 4]

  lemma EventHeaderTable()
    ensures Solid(EVENT_HEADER) && KindSize(Sub(EVENT_HEADER)) == Size(EVENT_HEADER) == 32
  {
    assert Sum(EVENT_HEADER_WIDTHS, 1) == 4;
    assert Sum(EVENT_HEADER_WIDTHS, 3) == 28;
    FlatTableSolid(EVENT_HEADER, EVENT_HEADER_WIDTHS);
  }

  const SPEC_HEADER_WIDTHS: seq<nat> := [16, 4, 1, 1, 1, 1, 4]

  lemma SpecHeaderTable()
    ensures Solid(SPEC_HEADER) && KindSize(Sub(SPEC_HEADER)) == Size(SPEC_HEADER) == 28
  {
    assert Sum(SPEC_HEADER_WIDTHS, 1) == 16;
    assert Sum(SPEC_HEADER_WIDTHS, 3) == 21;
    assert Sum(SPEC_HEADER_WIDTHS, 5) == 23;
    FlatTableSolid(SPEC_HEADER, SPEC_HEADER_WIDTHS);
  }

  const ALGORITHM_SIZE_WIDTHS: seq<nat> := [2, 2]

  lemma AlgorithmSizeTable()
    ensures Solid(ALGORITHM_SIZE) && KindSize(Sub(ALGORITHM_SIZE)) == Size(ALGORITHM_SIZE) == 4
  {
    assert Sum(ALGORITHM_SIZE_WIDTHS, 1) == 2;
    FlatTableSolid(ALGORITHM_SIZE, ALGORITHM_SIZE_WIDTHS);
  }

  const EVENT2_HEADER_WIDTHS: seq<nat> := [4, 4, 4]

  lemma Event2HeaderTable()
    ensures Solid(EVENT2_HEADER) && KindSize(Sub(EVENT2_HEADER)) == Size(EVENT2_HEADER) == 12
  {
    assert Sum(EVENT2_HEADER_WIDTHS, 1) == 4;
    assert Sum(EVENT2_HEADER_WIDTHS, 2) == 8;
    FlatTableSolid(EVENT2_HEADER, EVENT2_HEADER_WIDTHS);
  }

  // ----- the records

  lemma TablesAreSolid()
    ensures Sized(EVENT_HEADER) && Size(EVENT_HEADER) == 32
    ensures Sized(SPEC_HEADER) && Size(SPEC_HEADER) == 28
    ensures Sized(ALGORITHM_SIZE) && Size(ALGORITHM_SIZE) == 4
    ensures Sized(EVENT2_HEADER) && Size(EVENT2_HEADER) == 12
  {
    EventHeaderTable();
    SpecHeaderTable();
    AlgorithmSizeTable();
    Event2HeaderTable();
  }

  predicate Fields2(pcr: nat, eventType: nat, count: nat) {
    pcr < 0x1_0000_0000 && eventType < 0x1_0000_0000 && count < 0x1_0000_0000
  }

  /** Setting the three fields gives a complete header that holds them. */
  lemma MakeHeaderMakes(pcr: nat, eventType: nat, count: nat)
    ensures MakeHeader(pcr, eventType, count).Some? <==> Fields2(pcr, eventType, count)
    ensures Fields2(pcr, eventType, count) ==>
              var h := MakeHeader(pcr, eventType, count).value;
              && Made(h, EVENT2_HEADER)
              && Num(h, "pcr_index") == pcr && Num(h, "event_type") == eventType && Num(h, "digest_count") == count
  {
    PowValues();
    Event2HeaderTable();
    var fs := EVENT2_HEADER.fields;
    assert fs[0].name == "pcr_index" && fs[1].name == "event_type" && fs[2].name == "digest_count";
    UniqueIndex(fs, 0);
    UniqueIndex(fs, 1);
    UniqueIndex(fs, 2);
    if Fields2(pcr, eventType, count) {
      var h := MakeHeader(pcr, eventType, count).value;
      assert h.data == map["pcr_index" := Int(pcr), "event_type" := Int(eventType), "digest_count" := Int(count)];
      assert NamesFrom(fs, 0) == {"pcr_index", "event_type", "digest_count"} by {
        assert forall j | 0 <= j < |fs| :: fs[j].name in {"pcr_index", "event_type", "digest_count"};
        assert fs[0].name in NamesFrom(fs, 0) && fs[1].name in NamesFrom(fs, 0) && fs[2].name in NamesFrom(fs, 0);
      }
      assert TypedAt(h, 0) && TypedAt(h, 1) && TypedAt(h, 2);
    }
  }

  /** A complete header is the one made of its three numbers. */
  lemma MadeHeader(h: Value)
    requires Made(h, EVENT2_HEADER)
    ensures Fields2(Num(h, "pcr_index"), Num(h, "event_type"), Num(h, "digest_count"))
    ensures MakeHeader(Num(h, "pcr_index"), Num(h, "event_type"), Num(h, "digest_count")) == Some(h)
  {
    PowValues();
    Event2HeaderTable();
    var fs := EVENT2_HEADER.fields;
    assert TypedAt(h, 0) && TypedAt(h, 1) && TypedAt(h, 2);
    MakeHeaderMakes(Num(h, "pcr_index"), Num(h, "event_type"), Num(h, "digest_count"));
    var g := MakeHeader(Num(h, "pcr_index"), Num(h, "event_type"), Num(h, "digest_count")).value;
    assert TypedAt(g, 0) && TypedAt(g, 1) && TypedAt(g, 2);
    forall i | 0 <= i < |fs| ensures g.data[fs[i].name] == h.data[fs[i].name] {
      assert i == 0 || i == 1 || i == 2;
    }
    SameRecord(g, h);
  }

  /** Setting the size of a complete event header leaves a complete header, the same one when the size was right. */
  lemma SetSizeMakes(h: Value, size: nat)
    requires Made(h, EVENT_HEADER)
    ensures SetSize(h, size).Some? <==> size < 0x1_0000_0000
    ensures size < 0x1_0000_0000 ==> Made(SetSize(h, size).value, EVENT_HEADER) && Num(SetSize(h, size).value, "event_data_size") == size
    ensures size == Num(h, "event_data_size") ==> SetSize(h, size) == Some(h)
  {
    PowValues();
    EventHeaderTable();
    var fs := EVENT_HEADER.fields;
    assert fs[3].name == "event_data_size";
    UniqueIndex(fs, 3);
    assert TypedAt(h, 0) && TypedAt(h, 1) && TypedAt(h, 2) && TypedAt(h, 3);
    if size < 0x1_0000_0000 {
      var g := SetSize(h, size).value;
      assert g.data.Keys == h.data.Keys;
      forall i | 0 <= i < |fs| ensures TypedAt(g, i) {
        assert i == 0 || i == 1 || i == 2 || i == 3;
      }
      if size == Num(h, "event_data_size") {
        assert h.data["event_data_size" := Int(size)] == h.data;
      }
    }
  }

  // ----- packing what was unpacked

  lemma {:induction false} AlgorithmsPack(spec: bytes, at: nat, count: nat)
    requires at <= |spec| && UnpackAlgorithms(spec, at, count).Some?
    ensures var algorithms := UnpackAlgorithms(spec, at, count).value;
            && |algorithms| == count && at + 4 * count <= |spec|
            && PackAlgorithms(algorithms) == Some(spec[at..at + 4 * count])
    decreases count
  {
    hide Unpack, Pack, Sized, Size, Slice, PackPart;
    if count == 0 {
      assert spec[at..at] == [];
    } else {
      TablesAreSolid();
      SliceIsPiece(spec, at, |spec|);
      UnpackPacks(ALGORITHM_SIZE, Slice(spec, at, |spec|));
      var head := Unpack(ALGORITHM_SIZE, Slice(spec, at, |spec|)).value;
      AlgorithmsPack(spec, at + 4, count - 1);
      var rest := UnpackAlgorithms(spec, at + 4, count - 1).value;
      assert ([head] + rest)[1..] == rest;
      PieceOfPiece(spec, at, |spec|, 0, 4);
      assert spec[at..at + 4] + spec[at + 4..at + 4 * count] == spec[at..at + 4 * count];
    }
  }

  lemma DigestBytes(data: bytes, at: nat, next: nat, end: nat, id: nat)
    requires at + 2 <= next <= end <= |data| && Get(data, at, 2) == Some(id)
    ensures Le(id, 2) + Slice(data, at + 2, next) + data[next..end] == data[at..end]
  {
    hide Get, Le, Slice;
    GetLe(data, at, 2);
    SliceIsPiece(data, at + 2, next);
    Split3(data, at, at + 2, next, end);
  }

  /** One digest in front of the others. */
  lemma DigestsFirst(d: Digest, rest: seq<Digest>)
    ensures EncodeDigests([d] + rest) == Le(d.algorithm, 2) + d.bytes + EncodeDigests(rest)
  {
    hide Le;
    assert ([d] + rest)[1..] == rest;
  }

  lemma DigestsStep(data: bytes, at: nat, count: nat, sizes: map<nat, nat>)
    requires count > 0 && UnpackDigests(data, at, count, sizes).Some?
    ensures Get(data, at, 2).Some? && Get(data, at, 2).value in sizes
    ensures var id := Get(data, at, 2).value;
            var next := at + 2 + sizes[id];
            var rest := UnpackDigests(data, next, count - 1, sizes);
            && rest.Some?
            && UnpackDigests(data, at, count, sizes).value ==
                 ([Digest(id, Slice(data, at + 2, next))] + rest.value.0, rest.value.1)
  {
    hide Get, Slice;
  }

  lemma NoDigests(data: bytes, at: nat, sizes: map<nat, nat>)
    ensures UnpackDigests(data, at, 0, sizes) == Some(([], at)) && EncodeDigests([]) == []
  {
  }

  /** The digests of an event lie in the data whole, because the size after them does. */
  lemma {:induction false} DigestsPack(data: bytes, at: nat, count: nat, sizes: map<nat, nat>)
    requires UnpackDigests(data, at, count, sizes).Some? && UnpackDigests(data, at, count, sizes).value.1 <= |data|
    ensures var (digests, end) := UnpackDigests(data, at, count, sizes).value;
            at <= end && |digests| == count && EncodeDigests(digests) == data[at..end]
    decreases count
  {
    hide Get, Slice, Le, UnpackDigests, EncodeDigests;
    if count == 0 {
      NoDigests(data, at, sizes);
      assert data[at..at] == [];
    } else {
      DigestsStep(data, at, count, sizes);
      var id := Get(data, at, 2).value;
      var next := at + 2 + sizes[id];
      DigestsEnd(data, next, count - 1, sizes);
      DigestsPack(data, next, count - 1, sizes);
      var (rest, end) := UnpackDigests(data, next, count - 1, sizes).value;
      DigestsFirst(Digest(id, Slice(data, at + 2, next)), rest);
      DigestBytes(data, at, next, end, id);
    }
  }

  /** An event packs to the bytes it was read from exactly when its declared data is all there. */
  lemma EventPacks(data: bytes, at: nat, header: Value, sizes: map<nat, nat>)
    requires Made(header, EVENT2_HEADER) && at + 12 <= |data| && PackPart(Some(header)) == Some(data[at..at + 12])
    requires UnpackEvent(data, at, header, sizes).Some?
    ensures var (e, end) := UnpackEvent(data, at, header, sizes).value;
            && PackEvent(e).Some? && |e.eventData| <= e.eventSize < 0x1_0000_0000
            && (|e.eventData| == e.eventSize ==> at < end <= |data| && PackEvent(e).value == data[at..end])
            && (|e.eventData| < e.eventSize ==> end > |data| && !(PackEvent(e).value <= data[at..]))
  {
    hide Typed, PackPart, SetField, Slice, Le, EncodeDigests, UnpackDigests, MakeHeader;
    MadeHeader(header);
    var (e, end) := UnpackEvent(data, at, header, sizes).value;
    var count := Num(header, "digest_count");
    DigestsEnd(data, at + 12, count, sizes);
    DigestsPack(data, at + 12, count, sizes);
    var sizeAt := UnpackDigests(data, at + 12, count, sizes).value.1;
    EventBytes(data, at, sizeAt, e.eventSize, e.eventData, PackEvent(e).value);
    PowValues();
  }

  lemma EventBytes(data: bytes, at: nat, sizeAt: nat, size: nat, eventData: bytes, packed: bytes)
    requires at + 12 <= sizeAt && Get(data, sizeAt, 4) == Some(size) && eventData == Slice(data, sizeAt + 4, sizeAt + 4 + size)
    requires packed == data[at..at + 12] + data[at + 12..sizeAt] + Le(|eventData|, 4) + eventData
    ensures |eventData| <= size
    ensures |eventData| == size ==> sizeAt + 4 + size <= |data| && packed == data[at..sizeAt + 4 + size]
    ensures |eventData| < size ==> sizeAt + 4 + size > |data| && !(packed <= data[at..])
  {
    hide Slice, Le, Get;
    SliceIsPiece(data, sizeAt + 4, sizeAt + 4 + size);
    if |eventData| == size {
      EventWhole(data, at, sizeAt, size);
    } else {
      var before := data[at..at + 12] + data[at + 12..sizeAt];
      SizeDiffers(data, at, sizeAt, size, eventData, before);
    }
  }

  lemma EventWhole(data: bytes, at: nat, sizeAt: nat, size: nat)
    requires at + 12 <= sizeAt && sizeAt + 4 + size <= |data| && Get(data, sizeAt, 4) == Some(size)
    ensures data[at..at + 12] + data[at + 12..sizeAt] + Le(size, 4) + data[sizeAt + 4..sizeAt + 4 + size]
         == data[at..sizeAt + 4 + size]
  {
    hide Le, Get;
    GetLe(data, sizeAt, 4);
    Split4(data, at, at + 12, sizeAt, sizeAt + 4, sizeAt + 4 + size);
  }

  lemma SizeDiffers(data: bytes, at: nat, sizeAt: nat, size: nat, eventData: bytes, before: bytes)
    requires at <= sizeAt && Get(data, sizeAt, 4) == Some(size) && |eventData| < size && |before| == sizeAt - at
    ensures !(before + Le(|eventData|, 4) + eventData <= data[at..])
  {
    hide Le, Pow256, UnLe;
    LengthDiffers(data, sizeAt, size, |eventData|);
    FieldDiffers(data, at, sizeAt, before, Le(|eventData|, 4), eventData);
  }

  lemma FieldDiffers(data: bytes, at: nat, fieldAt: nat, before: bytes, field: bytes, after: bytes)
    requires at <= fieldAt && |before| == fieldAt - at
    requires fieldAt + |field| <= |data| && field != data[fieldAt..fieldAt + |field|]
    ensures !(before + field + after <= data[at..])
  {
    PieceOfDrop(data, at, |before|, |before| + |field|);
    MiddleDiffers(before, field, after, data[at..]);
  }

  lemma LengthDiffers(data: bytes, at: nat, size: nat, other: nat)
    requires Get(data, at, 4) == Some(size) && other < size
    ensures at + 4 <= |data| && Le(other, 4) != data[at..at + 4]
  {
    hide Le, Pow256, UnLe;
    GetLe(data, at, 4);
    LeDiffers(other, size, 4);
  }

  /** No event's data was cut off by the end of the log. */
  predicate Intact(events: seq<Event>) {
    forall e <- events :: |e.eventData| == e.eventSize
  }

  /** A terminator or the end of the data gives no events. */
  lemma {:induction false} EventsPack(data: bytes, at: nat, sizes: map<nat, nat>)
    requires UnpackEvents(data, at, sizes).Some? && at <= |data|
    ensures var events := UnpackEvents(data, at, sizes).value;
            && PackEvents(events).Some?
            && (Intact(events) ==> PackEvents(events).value <= data[at..])
            && (PackEvents(events).value <= data[at..] ==> Intact(events))
    decreases |data| - at
  {
    hide Slice, Unpack, PackPart, Sized, Size, UnpackEvent, PackEvent;
    var events := UnpackEvents(data, at, sizes).value;
    if events != [] {
      TablesAreSolid();
      SliceIsPiece(data, at, |data|);
      UnpackPacks(EVENT2_HEADER, Slice(data, at, |data|));
      PieceOfPiece(data, at, |data|, 0, 12);
      var header := Unpack(EVENT2_HEADER, Slice(data, at, |data|)).value;
      EventPacks(data, at, header, sizes);
      var (e, end) := UnpackEvent(data, at, header, sizes).value;
      var rest := UnpackEvents(data, end, sizes).value;
      assert events == [e] + rest && events[1..] == rest;
      var p, q := PackEvent(e).value, PackEvents(rest);
      assert Intact(events) <==> |e.eventData| == e.eventSize && Intact(rest);
      if |e.eventData| == e.eventSize {
        EventsPack(data, end, sizes);
        PrefixStep(data, at, end, p, q.value);
      } else if p + q.value <= data[at..] {
        PrefixOfPrefix(p, q.value, data[at..]);
        assert false;
      }
    }
  }

  lemma PrefixStep(data: bytes, at: nat, end: nat, p: bytes, q: bytes)
    requires at <= end <= |data| && p == data[at..end]
    ensures p + q <= data[at..] <==> q <= data[end..]
  {
    assert data[at..] == p + data[end..];
    if p + q <= p + data[end..] {
      assert q == (p + q)[|p|..] && data[end..] == (p + data[end..])[|p|..];
    }
  }

  lemma PrefixOfPrefix(p: bytes, q: bytes, b: bytes)
    requires p + q <= b
    ensures p <= b
  {
  }

  /** The specification event is all there, and its vendor information ends exactly where its header says it ends. */
  predicate Consumed(spec: Spec) {
    var vendorAt := 28 + 4 * |spec.algorithms|;
    && vendorAt < |spec.rawEventData|
    && |spec.rawEventData| == Num(spec.header, "event_data_size") == vendorAt + 1 + spec.rawEventData[vendorAt]
  }

  /** The specification event packs to the parts it was read from, its vendor information counted anew. */
  lemma SpecParts(data: bytes, header: Value)
    requires UnpackSpec(data, header).Some? && 32 <= |data|
    ensures var spec := UnpackSpec(data, header).value;
            var raw := Slice(data, 32, 32 + Num(header, "event_data_size"));
            var vendorAt := 28 + 4 * |spec.algorithms|;
            var vendor := spec.vendorInfo;
            && spec.rawEventData == raw && spec.header == header && vendorAt < |raw|
            && vendorAt + 1 + |vendor| <= |raw| && |vendor| <= raw[vendorAt]
            && vendor == raw[vendorAt + 1..vendorAt + 1 + |vendor|]
            && (vendorAt + 1 + raw[vendorAt] <= |raw| ==> |vendor| == raw[vendorAt])
            && PackSpecData(spec) == Some(raw[..28] + raw[28..vendorAt] + Le(|vendor|, 1) + vendor)
  {
    hide Slice, Unpack, Pack, PackPart, Sized, Size, UnpackAlgorithms, PackAlgorithms, Le, Num;
    var raw := Slice(data, 32, 32 + Num(header, "event_data_size"));
    SliceIsPiece(data, 32, 32 + Num(header, "event_data_size"));
    var spec := UnpackSpec(data, header).value;
    var vendorAt := 28 + 4 * |spec.algorithms|;
    TablesAreSolid();
    UnpackPacks(SPEC_HEADER, raw);
    AlgorithmsPack(raw, 28, Num(spec.specHeader, "number_of_algorithms"));
    OneByte(raw, vendorAt);
    SliceIsPiece(raw, vendorAt + 1, vendorAt + 1 + raw[vendorAt]);
  }

  lemma SpecPacks(data: bytes, header: Value)
    requires UnpackSpec(data, header).Some? && 32 <= |data|
    ensures var spec := UnpackSpec(data, header).value;
            var size := Num(header, "event_data_size");
            && PackSpecData(spec).Some? && |PackSpecData(spec).value| <= size && |spec.rawEventData| <= size
            && (Consumed(spec) ==> 32 + size <= |data| && PackSpecData(spec).value == data[32..32 + size])
            && (|PackSpecData(spec).value| == size && PackSpecData(spec).value <= data[32..] ==> Consumed(spec))
  {
    hide Slice, UnpackSpec, PackSpecData, Le, Num, Consumed;
    SpecParts(data, header);
    var size := Num(header, "event_data_size");
    var raw := Slice(data, 32, 32 + size);
    SliceIsPiece(data, 32, 32 + size);
    var spec := UnpackSpec(data, header).value;
    var vendorAt := 28 + 4 * |spec.algorithms|;
    ConsumedIs(spec, size);
    RawPacks(data, raw, size, vendorAt, spec.vendorInfo);
  }

  lemma ConsumedIs(spec: Spec, size: nat)
    requires Num(spec.header, "event_data_size") == size && 28 + 4 * |spec.algorithms| < |spec.rawEventData|
    ensures var vendorAt := 28 + 4 * |spec.algorithms|;
            Consumed(spec) <==> |spec.rawEventData| == size == vendorAt + 1 + spec.rawEventData[vendorAt]
  {
    hide Num;
  }

  /** The parts of a specification event are its bytes again exactly when they reach its end. */
  lemma RawPacks(data: bytes, raw: bytes, size: nat, at: nat, vendor: bytes)
    requires 32 <= |data| && raw <= data[32..] && 28 <= at < |raw| <= size
    requires |raw| == size ==> 32 + size <= |data| && raw == data[32..32 + size]
    requires at + 1 + |vendor| <= |raw| && |vendor| <= raw[at] && vendor == raw[at + 1..at + 1 + |vendor|]
    ensures var packed := raw[..28] + raw[28..at] + Le(|vendor|, 1) + vendor;
            && |packed| == at + 1 + |vendor|
            && (|raw| == size == at + 1 + raw[at] && |vendor| == raw[at] ==> packed == data[32..32 + size])
            && (|packed| == size && packed <= data[32..] ==> |raw| == size == at + 1 + raw[at])
  {
    hide Le;
    var before := raw[..28] + raw[28..at];
    var packed := before + Le(|vendor|, 1) + vendor;
    if |raw| == size == at + 1 + raw[at] && |vendor| == raw[at] {
      OneByte(raw, at);
      Split4(raw, 0, 28, at, at + 1, |raw|);
      assert raw[0..28] == raw[..28] && raw[0..|raw|] == raw;
    }
    if |packed| == size && packed <= data[32..] {
      VendorByte(data, raw, at, vendor, before);
    }
  }

  lemma OneByte(b: bytes, at: nat)
    requires at < |b|
    ensures Get(b, at, 1) == Some(b[at]) && Le(b[at], 1) == b[at..at + 1]
  {
    var one := b[at..at + 1];
    assert one[1..] == [] && UnLe(one) == one[0] + 256 * UnLe(one[1..]);
    LeUnLe(one);
  }

  lemma VendorByte(data: bytes, raw: bytes, at: nat, vendor: bytes, before: bytes)
    requires 32 <= |data| && at < |raw| && raw <= data[32..] && |before| == at && |vendor| <= raw[at]
    requires before + Le(|vendor|, 1) + vendor <= data[32..]
    ensures |vendor| == raw[at]
  {
    hide Le, Pow256;
    var rest := data[32..];
    PrefixMiddle(before, Le(|vendor|, 1), vendor, rest);
    SameByte(raw, rest, at);
    OneByte(rest, at);
    PowValues();
    if |vendor| != rest[at] {
      LeDiffers(|vendor|, rest[at], 1);
    }
  }

  lemma SameByte(raw: bytes, rest: bytes, at: nat)
    requires raw <= rest && at < |raw|
    ensures at < |rest| && rest[at] == raw[at]
  {
  }

  lemma LogBytes(data: bytes, h: bytes, h': bytes, sd: bytes, ev: bytes, size: nat)
    requires 32 <= |data| && h == data[..32] && |h'| == 32
    requires h' + sd + ev <= data
    ensures h' == h && sd <= data[32..] && (|sd| == size ==> 32 + size <= |data| && ev <= data[32 + size..])
  {
    assert h' == (h' + sd + ev)[..32];
    assert sd == (h' + sd + ev)[32..32 + |sd|];
    assert ev == (h' + sd + ev)[32 + |sd|..];
  }

  /** Unpacking a log and packing it again gives a prefix of the data exactly when the specification event is
      consumed to its declared size and no event was cut off; packing then leaves the log as it was. */
  lemma LogPacks(data: bytes)
    requires data != [] && UnpackLog(data).Some?
    ensures var log := UnpackLog(data).value;
            && log.spec.Some? && PackLog(log).Some?
            && (PackLog(log).value.1 <= data <==> Consumed(log.spec.value) && Intact(log.events))
            && (PackLog(log).value.1 <= data ==> PackLog(log).value.0 == log)
  {
    hide Slice, Unpack, Pack, PackPart, Sized, Size, UnpackSpec, PackSpecData, UnpackEvents, PackEvents, SetSize, Consumed, Intact, Typed;
    TablesAreSolid();
    UnpackPacks(EVENT_HEADER, data);
    var log := UnpackLog(data).value;
    var spec := log.spec.value;
    var header := Unpack(EVENT_HEADER, data).value;
    var size := Num(header, "event_data_size");
    SpecHeaderKept(data, header);
    HeaderSizeBound(header);
    SpecPacks(data, header);
    var sd := PackSpecData(spec).value;
    SetSizeMakes(header, |sd|);
    var header' := SetSize(header, |sd|).value;
    MadePacks(header', EVENT_HEADER);
    MadePacks(header, EVENT_HEADER);
    EventsPackAnywhere(data, 32 + size, SizeMap(spec.algorithms));
    var ev := PackEvents(log.events).value;
    var packed := PackLog(log).value.1;
    assert packed == Encode(header') + sd + ev;
    if packed <= data {
      LogBytes(data, Encode(header), Encode(header'), sd, ev, size);
      UnpackMade(header, EVENT_HEADER, Encode(header));
      UnpackMade(header', EVENT_HEADER, Encode(header));
    } else if Consumed(spec) && Intact(log.events) {
      Split3(data, 0, 32, 32 + size, |data|);
    }
  }

  lemma SpecHeaderKept(data: bytes, header: Value)
    requires UnpackSpec(data, header).Some?
    ensures UnpackSpec(data, header).value.header == header
  {
    hide Slice, Unpack, UnpackAlgorithms;
  }

  lemma HeaderSizeBound(header: Value)
    requires Made(header, EVENT_HEADER)
    ensures Num(header, "event_data_size") < 0x1_0000_0000
  {
    PowValues();
    assert EVENT_HEADER.fields[3].name == "event_data_size";
    assert TypedAt(header, 3);
  }

  lemma EventsPackAnywhere(data: bytes, at: nat, sizes: map<nat, nat>)
    requires UnpackEvents(data, at, sizes).Some?
    ensures var events := UnpackEvents(data, at, sizes).value;
            && PackEvents(events).Some?
            && (at <= |data| ==> (Intact(events) <==> PackEvents(events).value <= data[at..]))
  {
    hide Slice, Unpack;
    if at <= |data| {
      EventsPack(data, at, sizes);
    }
  }

  // ----- two logs that do not come back

  /** A number of an unpacked record is the one at its place. */
  lemma NumAt(schema: Schema, i: nat, data: bytes, at: nat, w: nat)
    requires Sized(schema) && Size(schema) <= |data| && i < |schema.fields| && schema.fields[i].kind == UInt(w)
    requires Offset(schema.fields, i) == at && at + w <= |data|
    ensures Unpack(schema, data).Some? && Num(Unpack(schema, data).value, schema.fields[i].name) == UnLe(data[at..at + w])
  {
    hide Unpack, UnLe;
    FieldIs(schema, i, data);
  }

  lemma Places()
    ensures Offset(EVENT_HEADER.fields, 3) == 28 && Offset(SPEC_HEADER.fields, 6) == 24
    ensures Offset(EVENT2_HEADER.fields, 0) == 0 && Offset(EVENT2_HEADER.fields, 1) == 4 && Offset(EVENT2_HEADER.fields, 2) == 8
  {
    EventHeaderTable();
    SpecHeaderTable();
    Event2HeaderTable();
    LastPlace(EVENT_HEADER.fields, 3);
    LastPlace(SPEC_HEADER.fields, 6);
    LastPlace(EVENT2_HEADER.fields, 2);
    assert Offset(EVENT2_HEADER.fields, 1) == Offset(EVENT2_HEADER.fields, 0) + KindSize(EVENT2_HEADER.fields[0].kind);
  }

  lemma LastPlace(fields: seq<Field>, i: nat)
    requires |fields| == i + 1 && fields[i].kind == UInt(4)
    ensures Offset(fields, i) == Offset(fields, |fields|) - 4
  {
  }

  lemma SmallNumber(n: byte)
    ensures UnLe([n, 0, 0, 0]) == n && UnLe([0, 0, 0, 0]) == 0 && UnLe([n]) == n
  {
    var b: bytes := [n, 0, 0, 0];
    assert b[1..] == [0, 0, 0] && b[1..][1..] == [0, 0] && b[1..][1..][1..] == [0] && b[1..][1..][1..][1..] == [];
    assert UnLe(b[1..][1..][1..]) == 0 && UnLe(b[1..][1..]) == 0 && UnLe(b[1..]) == 0;
    var z: bytes := [0, 0, 0, 0];
    assert z[1..] == [0, 0, 0] && UnLe([0, 0, 0]) == 0;
    var one: bytes := [n];
    assert one[1..] == [];
  }

  /** The header of a specification event of this size, and the event: no algorithms, no vendor information, zeros behind. */
  function SpecData(size: byte): (b: bytes)
    ensures |b| == 32 + size
  {
    Zeros(28) + [size, 0, 0, 0] + Zeros(size)
  }

  lemma SpecDataReads(size: byte, data: bytes)
    requires size >= 29 && SpecData(size) <= data
    ensures var header := Unpack(EVENT_HEADER, data);
            && header.Some? && Num(header.value, "event_data_size") == size
            && var spec := UnpackSpec(data, header.value);
            && spec.Some? && spec.value.algorithms == [] && spec.value.rawEventData == Zeros(size)
            && spec.value.header == header.value
  {
    hide Unpack, Num, UnLe, Sized, Slice;
    Places();
    TablesAreSolid();
    SmallNumber(size);
    assert data[28..32] == SpecData(size)[28..32] == [size, 0, 0, 0];
    NumAt(EVENT_HEADER, 3, data, 28, 4);
    assert EVENT_HEADER.fields[3].name == "event_data_size" && SPEC_HEADER.fields[6].name == "number_of_algorithms";
    var header := Unpack(EVENT_HEADER, data).value;
    SliceIsPiece(data, 32, 32 + size);
    assert data[32..32 + size] == SpecData(size)[32..] == Zeros(size);
    assert Zeros(size)[24..28] == [0, 0, 0, 0];
    NumAt(SPEC_HEADER, 6, Zeros(size), 24, 4);
    assert Zeros(size)[28..29] == [0];
    SmallNumber(0);
  }

  /** A specification event of 30 bytes that ends after 29: its last byte is not packed again. */
  lemma UnconsumedLog()
    ensures var data := SpecData(30);
            && UnpackLog(data).Some? && PackLog(UnpackLog(data).value).Some?
            && !(PackLog(UnpackLog(data).value).value.1 <= data)
  {
    hide Unpack, Num, UnpackSpec, SizeMap, PackLog, SpecData;
    var data := SpecData(30);
    SpecDataReads(30, data);
    var spec := UnpackSpec(data, Unpack(EVENT_HEADER, data).value).value;
    assert UnpackEvents(data, 62, SizeMap(spec.algorithms)) == Some([]);
    LogPacks(data);
    assert Zeros(30)[28] == 0;
  }

  /** One event behind a consumed specification event: 4 numbers of zero but the size of its data, which is 1 with nothing
      behind it. */
  lemma CutOffLog()
    ensures var data := SpecData(29) + Zeros(12) + [1, 0, 0, 0];
            && UnpackLog(data).Some? && PackLog(UnpackLog(data).value).Some?
            && !(PackLog(UnpackLog(data).value).value.1 <= data)
  {
    hide Unpack, Num, UnpackSpec, SizeMap, PackLog, SpecData, UnLe, UnpackEvents;
    var data := SpecData(29) + Zeros(12) + [1, 0, 0, 0];
    SpecDataReads(29, data);
    var spec := UnpackSpec(data, Unpack(EVENT_HEADER, data).value).value;
    CutOffEvent(data, SizeMap(spec.algorithms));
    LogPacks(data);
    var log := UnpackLog(data).value;
    assert log.events[0] in log.events;
  }

  lemma CutOffEvent(data: bytes, sizes: map<nat, nat>)
    requires |data| == 77 && data[61..] == Zeros(12) + [1, 0, 0, 0]
    ensures var events := UnpackEvents(data, 61, sizes);
            events.Some? && |events.value| == 1 && |events.value[0].eventData| < events.value[0].eventSize
  {
    hide Unpack, Num, UnLe, Sized, Slice;
    Places();
    TablesAreSolid();
    SmallNumber(0);
    SmallNumber(1);
    var b := Zeros(12) + [1, 0, 0, 0];
    SliceIsPiece(data, 61, 77);
    assert data[61..77] == data[61..];
    assert b[0..4] == [0, 0, 0, 0] && b[4..8] == [0, 0, 0, 0] && b[8..12] == [0, 0, 0, 0];
    NumAt(EVENT2_HEADER, 0, b, 0, 4);
    NumAt(EVENT2_HEADER, 1, b, 4, 4);
    NumAt(EVENT2_HEADER, 2, b, 8, 4);
    var header := Unpack(EVENT2_HEADER, b).value;
    EventNames();
    assert data[73..77] == data[61..][12..16] == [1, 0, 0, 0];
    assert Slice(data, 77, 78) == [] by { EmptySlice(data); }
    assert UnpackEvent(data, 61, header, sizes) == Some((Event(0, 0, [], 1, [], -1), 78));
    assert UnpackEvents(data, 78, sizes) == Some([]);
  }

  lemma EmptySlice(data: bytes)
    requires |data| == 77
    ensures Slice(data, 77, 78) == []
  {
  }

  lemma EventNames()
    ensures EVENT2_HEADER.fields[0].name == "pcr_index" && EVENT2_HEADER.fields[1].name == "event_type"
    ensures EVENT2_HEADER.fields[2].name == "digest_count"
  {
  }

  // ----- unpacking what was packed

  ghost predicate WellFormedSpec(spec: Spec) {
    && Made(spec.header, EVENT_HEADER) && Made(spec.specHeader, SPEC_HEADER)
    && (forall i | 0 <= i < |spec.algorithms| :: Made(spec.algorithms[i], ALGORITHM_SIZE))
    && Num(spec.specHeader, "number_of_algorithms") == |spec.algorithms|
    && |spec.vendorInfo| < 256
    && PackSpecData(spec) == Some(spec.rawEventData) && |spec.rawEventData| < 0x1_0000_0000
  }

  /** Every digest has the size registered for its algorithm. */
  predicate Registered(digests: seq<Digest>, sizes: map<nat, nat>) {
    forall i | 0 <= i < |digests| ::
      digests[i].algorithm < 0x1_0000 && digests[i].algorithm in sizes && |digests[i].bytes| == sizes[digests[i].algorithm]
  }

  predicate WellFormedEvent(e: Event, sizes: map<nat, nat>) {
    && e.pcrIndex < TERMINATOR && KnownEventType(e.eventType) && |e.digests| < 0x1_0000_0000
    && Registered(e.digests, sizes)
    && e.eventSize == |e.eventData| < 0x1_0000_0000
    && e.rtmr == e.pcrIndex - 1
  }

  ghost predicate WellFormed(log: Log) {
    && log.spec.Some? && WellFormedSpec(log.spec.value)
    && forall i | 0 <= i < |log.events| :: WellFormedEvent(log.events[i], SizeMap(log.spec.value.algorithms))
  }

  /** Nothing, or at least 12 bytes that begin with the terminator. */
  predicate Ending(tail: bytes) {
    tail == [] || (|tail| >= 12 && tail[..4] == [255, 255, 255, 255])
  }

  lemma {:induction false} AlgorithmsMade(algorithms: seq<Value>, spec: bytes, at: nat, packed: bytes)
    requires forall i | 0 <= i < |algorithms| :: Made(algorithms[i], ALGORITHM_SIZE)
    requires PackAlgorithms(algorithms) == Some(packed) && at + |packed| <= |spec| && spec[at..at + |packed|] == packed
    ensures |packed| == 4 * |algorithms| && UnpackAlgorithms(spec, at, |algorithms|) == Some(algorithms)
  {
    hide Slice, Unpack, Pack, PackPart, Sized, Size, Typed;
    if algorithms != [] {
      TablesAreSolid();
      assert Made(algorithms[0], ALGORITHM_SIZE);
      MadePacks(algorithms[0], ALGORITHM_SIZE);
      var first, rest := Encode(algorithms[0]), PackAlgorithms(algorithms[1..]).value;
      TwoPieces(spec, at, first, rest);
      AlgorithmsMade(algorithms[1..], spec, at + 4, rest);
      SliceIsPiece(spec, at, |spec|);
      PieceOfPiece(spec, at, |spec|, 0, 4);
      UnpackMade(algorithms[0], ALGORITHM_SIZE, Slice(spec, at, |spec|));
      assert [algorithms[0]] + algorithms[1..] == algorithms;
    }
  }

  /** Reading on behind a digest that is laid in the data. */
  lemma DigestRead(d: Digest, data: bytes, at: nat, count: nat, sizes: map<nat, nat>)
    requires d.algorithm < 0x1_0000 && d.algorithm in sizes && |d.bytes| == sizes[d.algorithm] && count > 0
    requires at + 2 + |d.bytes| <= |data| && data[at..at + 2] == Le(d.algorithm, 2)
    requires data[at + 2..at + 2 + |d.bytes|] == d.bytes
    ensures var rest := UnpackDigests(data, at + 2 + |d.bytes|, count - 1, sizes);
            UnpackDigests(data, at, count, sizes) ==
              if rest.Some? then Some(([d] + rest.value.0, rest.value.1)) else None
  {
    PowValues();
    UnLeLe(d.algorithm, 2);
  }

  lemma {:induction false} DigestsMade(digests: seq<Digest>, data: bytes, at: nat, sizes: map<nat, nat>)
    requires Registered(digests, sizes)
    requires var packed := EncodeDigests(digests); at + |packed| <= |data| && data[at..at + |packed|] == packed
    ensures UnpackDigests(data, at, |digests|, sizes) == Some((digests, at + |EncodeDigests(digests)|))
  {
    hide Slice, Le, UnpackDigests, EncodeDigests;
    if digests == [] {
      NoDigests(data, at, sizes);
    } else {
      var d := digests[0];
      var rest := EncodeDigests(digests[1..]);
      assert [d] + digests[1..] == digests;
      DigestsFirst(d, digests[1..]);
      Assoc(Le(d.algorithm, 2), d.bytes, rest);
      TwoPieces(data, at, Le(d.algorithm, 2), d.bytes + rest);
      TwoPieces(data, at + 2, d.bytes, rest);
      DigestRead(d, data, at, |digests|, sizes);
      DigestsMade(digests[1..], data, at + 2 + |d.bytes|, sizes);
    }
  }

  lemma EventMade(e: Event, data: bytes, at: nat, sizes: map<nat, nat>)
    requires WellFormedEvent(e, sizes) && PackEvent(e).Some?
    requires var packed := PackEvent(e).value; at + |packed| <= |data| && data[at..at + |packed|] == packed
    ensures |PackEvent(e).value| >= 12 && at + 12 <= |data|
    ensures var header := MakeHeader(e.pcrIndex, e.eventType, |e.digests|);
            && header.Some? && Unpack(EVENT2_HEADER, data[at..]) == header
            && Num(header.value, "pcr_index") == e.pcrIndex
            && UnpackEvent(data, at, header.value, sizes) == Some((e, at + |PackEvent(e).value|))
  {
    hide Slice, Unpack, Pack, PackPart, Sized, Size, Le, MakeHeader, EncodeDigests, UnpackDigests, Made;
    TablesAreSolid();
    MakeHeaderMakes(e.pcrIndex, e.eventType, |e.digests|);
    var header := MakeHeader(e.pcrIndex, e.eventType, |e.digests|).value;
    MadePacks(header, EVENT2_HEADER);
    var digests, size := EncodeDigests(e.digests), Le(|e.eventData|, 4);
    FourPieces(data, at, Encode(header), digests, size, e.eventData);
    PieceOfDrop(data, at, 0, 12);
    UnpackMade(header, EVENT2_HEADER, data[at..]);
    DigestsMade(e.digests, data, at + 12, sizes);
    PowValues();
    UnLeLe(|e.eventData|, 4);
  }

  lemma {:induction false} EventsMade(events: seq<Event>, data: bytes, at: nat, sizes: map<nat, nat>, packed: bytes, tail: bytes)
    requires forall i | 0 <= i < |events| :: WellFormedEvent(events[i], sizes)
    requires PackEvents(events) == Some(packed) && Ending(tail)
    requires at <= |data| && data[at..] == packed + tail
    ensures UnpackEvents(data, at, sizes) == Some(events)
    decreases |events|
  {
    hide Slice, Unpack, PackPart, PackEvent, UnpackEvent, MakeHeader, WellFormedEvent;
    assert at < |data| ==> Slice(data, at, |data|) == data[at..];
    if events == [] {
      if tail != [] {
        assert data[at..] == tail;
        TerminatorRead(tail);
      }
    } else {
      assert WellFormedEvent(events[0], sizes);
      var first, rest := PackEvent(events[0]).value, PackEvents(events[1..]).value;
      assert packed + tail == first + (rest + tail);
      Cut(data, at, first, rest + tail);
      EventMade(events[0], data, at, sizes);
      NotTerminator(events[0], sizes);
      EventsMade(events[1..], data, at + |first|, sizes, rest, tail);
      assert [events[0]] + events[1..] == events;
    }
  }

  lemma NotTerminator(e: Event, sizes: map<nat, nat>)
    requires WellFormedEvent(e, sizes)
    ensures e.pcrIndex != TERMINATOR
  {
  }

  lemma TerminatorRead(tail: bytes)
    requires |tail| >= 12 && tail[..4] == [255, 255, 255, 255]
    ensures Unpack(EVENT2_HEADER, tail).Some? && Num(Unpack(EVENT2_HEADER, tail).value, "pcr_index") == TERMINATOR
  {
    Event2HeaderTable();
    UnpackHolds(EVENT2_HEADER, tail);
    assert HoldsButHookAt(Unpack(EVENT2_HEADER, tail).value, 0, tail);
    assert EVENT2_HEADER.fields[0] == Field("pcr_index", UInt(4));
    var t := tail[0..4];
    assert t == tail[..4];
    assert t[1..] == [255, 255, 255] && t[1..][1..] == [255, 255] && t[1..][1..][1..] == [255] && t[1..][1..][1..][1..] == [];
    assert UnLe(t[1..][1..][1..]) == 255 && UnLe(t[1..][1..]) == 65535;
    assert UnLe(t[1..]) == 16777215 && UnLe(t) == TERMINATOR;
  }

  /** A well-formed log packs, and unpacking the bytes, with nothing or a terminator behind them, gives back the
      log as `pack` left it: the same log with the specification event's true size in its header. */
  lemma UnpackPackedLog(log: Log, tail: bytes)
    requires WellFormed(log) && Ending(tail)
    ensures PackLog(log).Some?
    ensures var (log', packed) := PackLog(log).value;
            && UnpackLog(packed + tail) == Some(log')
            && (Num(log.spec.value.header, "event_data_size") == |log.spec.value.rawEventData| ==> log' == log)
  {
    hide Slice, Unpack, Pack, PackPart, Sized, Size, UnpackSpec, PackSpecData, UnpackEvents, PackEvents, SetSize, Typed, SizeMap;
    TablesAreSolid();
    var spec := log.spec.value;
    SetSizeMakes(spec.header, |spec.rawEventData|);
    var header' := SetSize(spec.header, |spec.rawEventData|).value;
    MadePacks(header', EVENT_HEADER);
    EventsPacked(log.events, SizeMap(spec.algorithms));
    var ev := PackEvents(log.events).value;
    var packed := PackLog(log).value.1;
    var data := packed + tail;
    var end := 32 + |spec.rawEventData|;
    assert packed == Encode(header') + spec.rawEventData + ev;
    assert data[..32] == Encode(header') && data[32..end] == spec.rawEventData && data[end..] == ev + tail;
    UnpackMade(header', EVENT_HEADER, data);
    SpecMade(spec, header', data);
    EventsMade(log.events, data, end, SizeMap(spec.algorithms), ev, tail);
  }

  lemma {:induction false} EventsPacked(events: seq<Event>, sizes: map<nat, nat>)
    requires forall i | 0 <= i < |events| :: WellFormedEvent(events[i], sizes)
    ensures PackEvents(events).Some?
  {
    hide PackPart, MakeHeader, Pack, Made;
    if events != [] {
      assert WellFormedEvent(events[0], sizes);
      TablesAreSolid();
      MakeHeaderMakes(events[0].pcrIndex, events[0].eventType, |events[0].digests|);
      MadePacks(MakeHeader(events[0].pcrIndex, events[0].eventType, |events[0].digests|).value, EVENT2_HEADER);
      EventsPacked(events[1..], sizes);
    }
  }

  lemma SpecMade(spec: Spec, header: Value, data: bytes)
    requires WellFormedSpec(spec) && Num(header, "event_data_size") == |spec.rawEventData|
    requires 32 + |spec.rawEventData| <= |data| && data[32..32 + |spec.rawEventData|] == spec.rawEventData
    ensures UnpackSpec(data, header) == Some(spec.(header := header))
  {
    hide Slice, Unpack, Pack, PackPart, Sized, Size, UnpackAlgorithms, PackAlgorithms, Le, Typed;
    TablesAreSolid();
    var raw := spec.rawEventData;
    var algorithms, vendor := PackAlgorithms(spec.algorithms).value, Le(|spec.vendorInfo|, 1);
    MadePacks(spec.specHeader, SPEC_HEADER);
    assert raw[0..|raw|] == raw;
    FourPieces(raw, 0, Encode(spec.specHeader), algorithms, vendor, spec.vendorInfo);
    UnpackMade(spec.specHeader, SPEC_HEADER, raw);
    AlgorithmsMade(spec.algorithms, raw, 28, algorithms);
    PowValues();
    UnLeLe(|spec.vendorInfo|, 1);
    assert Slice(data, 32, 32 + |raw|) == raw;
  }

  // ----- the class

  class CcelEventLog {
    var spec: Option<Spec>
    var events: seq<Event>

    ghost function Snapshot(): Log
      reads this
    {
      Log(spec, events)
    }

    constructor ()
      ensures Snapshot() == Log(None, [])
    {
      spec, events := None, [];
    }

    static method UnpackNew(data: bytes) returns (r: Option<CcelEventLog>)
      ensures r.Some? <==> UnpackLog(data).Some?
      ensures r.Some? ==> fresh(r.value) && r.value.Snapshot() == UnpackLog(data).value
    {
      hide Unpack, Slice, UnpackEvent, UnpackDigests, KnownEventType;
      var log := new CcelEventLog();
      if data == [] { return Some(log); }
      var header := Unpack(EVENT_HEADER, data);
      if header.None? { return None; }
      var spec, sizes := ReadSpec(data, header.value);
      if spec.None? { return None; }
      log.spec := spec;
      var offset := 32 + Num(header.value, "event_data_size");
      ghost var all := UnpackEvents(data, offset, sizes);
      while offset < |data|
        invariant log.spec == spec && fresh(log)
        invariant all == Prepend(log.events, UnpackEvents(data, offset, sizes))
        decreases |data| - offset
      {
        var eventHeader := Unpack(EVENT2_HEADER, Slice(data, offset, |data|));
        if eventHeader.None? { return None; }
        if Num(eventHeader.value, "pcr_index") == TERMINATOR { break; }
        var event, next := ReadEvent(data, offset, eventHeader.value, sizes);
        if event.None? { return None; }
        PrependMore(log.events, [event.value], UnpackEvents(data, next, sizes));
        log.events := log.events + [event.value];
        offset := next;
      }
      r := Some(log);
    }

    /** The specification event, and the digest sizes it registers. */
    static method ReadSpec(data: bytes, header: Value) returns (r: Option<Spec>, sizes: map<nat, nat>)
      ensures r == UnpackSpec(data, header)
      ensures r.Some? ==> sizes == SizeMap(r.value.algorithms)
    {
      hide Unpack, Slice, UnpackAlgorithms, SizeMap;
      sizes := map[];
      var specData := Slice(data, 32, 32 + Num(header, "event_data_size"));
      var specHeader := Unpack(SPEC_HEADER, specData);
      if specHeader.None? { return None, sizes; }
      var count := Num(specHeader.value, "number_of_algorithms");
      var algorithms;
      algorithms, sizes := ReadAlgorithms(specData, count);
      if algorithms.None? { return None, sizes; }
      var specOffset := 28 + 4 * count;
      var vendorSize := Get(specData, specOffset, 1);
      if vendorSize.None? { return None, sizes; }
      specOffset := specOffset + 1;
      r := Some(Spec(header, specHeader.value, algorithms.value,
                     Slice(specData, specOffset, specOffset + vendorSize.value), specData));
    }

    static method ReadAlgorithms(specData: bytes, count: nat) returns (r: Option<seq<Value>>, sizes: map<nat, nat>)
      ensures r == UnpackAlgorithms(specData, 28, count)
      ensures r.Some? ==> sizes == SizeMap(r.value)
    {
      hide Unpack, Slice;
      sizes := map[];
      var specOffset := 28;
      var algorithms: seq<Value> := [];
      for i := 0 to count
        invariant specOffset == 28 + 4 * i && |algorithms| == i
        invariant sizes == SizeMap(algorithms)
        invariant UnpackAlgorithms(specData, 28, count)
               == Prepend(algorithms, UnpackAlgorithms(specData, specOffset, count - i))
      {
        var size := Unpack(ALGORITHM_SIZE, Slice(specData, specOffset, |specData|));
        if size.None? { return None, sizes; }
        PrependMore(algorithms, [size.value], UnpackAlgorithms(specData, specOffset + 4, count - i - 1));
        assert (algorithms + [size.value])[..i] == algorithms;
        algorithms := algorithms + [size.value];
        sizes := sizes[Num(size.value, "algorithm_id") := Num(size.value, "digest_size")];
        specOffset := specOffset + 4;
      }
      r := Some(algorithms);
    }

    static method ReadEvent(data: bytes, at: nat, header: Value, sizes: map<nat, nat>) returns (r: Option<Event>, next: nat)
      ensures r.Some? <==> UnpackEvent(data, at, header, sizes).Some?
      ensures r.Some? ==> UnpackEvent(data, at, header, sizes) == Some((r.value, next)) && next > at
    {
      hide Slice, KnownEventType, UnpackDigests, Get, Num;
      next := at;
      var digests := ReadDigests(data, at + 12, Num(header, "digest_count"), sizes);
      if digests.None? { return None, next; }
      var offset := digests.value.1;
      var size := Get(data, offset, 4);
      if size.None? { return None, next; }
      offset := offset + 4;
      if !KnownEventType(Num(header, "event_type")) { return None, next; }
      var rtmr: int := Num(header, "pcr_index");
      rtmr := rtmr - 1;
      r := Some(Event(Num(header, "pcr_index"), Num(header, "event_type"), digests.value.0, size.value,
                      Slice(data, offset, offset + size.value), rtmr));
      next := offset + size.value;
    }

    static method ReadDigests(data: bytes, at: nat, count: nat, sizes: map<nat, nat>) returns (r: Option<(seq<Digest>, nat)>)
      ensures r == UnpackDigests(data, at, count, sizes)
      ensures r.Some? ==> r.value.1 >= at
    {
      hide Slice, Get;
      var offset := at;
      var digests: seq<Digest> := [];
      ghost var all := UnpackDigests(data, offset, count, sizes);
      assert all.Some? ==> [] + all.value.0 == all.value.0;
      for i := 0 to count
        invariant offset >= at
        invariant var rest := UnpackDigests(data, offset, count - i, sizes);
                  all == if rest.Some? then Some((digests + rest.value.0, rest.value.1)) else None
      {
        var algorithm := Get(data, offset, 2);
        if algorithm.None? { return None; }
        offset := offset + 2;
        if algorithm.value !in sizes { return None; }
        var size := sizes[algorithm.value];
        var digest := Digest(algorithm.value, Slice(data, offset, offset + size));
        ghost var rest := UnpackDigests(data, offset + size, count - i - 1, sizes);
        assert rest.Some? ==> (digests + [digest]) + rest.value.0 == digests + ([digest] + rest.value.0);
        digests := digests + [digest];
        offset := offset + size;
      }
      assert digests + [] == digests;
      r := Some((digests, offset));
    }

    /** Packing also corrects the size in the header of the specification event. */
    method PackSelf() returns (r: Option<bytes>)
      modifies this
      ensures r.Some? <==> PackLog(old(Snapshot())).Some?
      ensures r.Some? ==> (Snapshot(), r.value) == PackLog(old(Snapshot())).value
    {
      hide PackPart, Le, SetField, PackEvent;
      if spec.None? { return None; }
      var specData := PackSpecParts(spec.value);
      if specData.None? { return None; }
      var header := SetSize(spec.value.header, |specData.value|);
      if header.None? { return None; }
      spec := Some(spec.value.(header := header.value));
      var packed := PackPart(Some(header.value));
      if packed.None? { return None; }
      var parts := [packed.value, specData.value];
      assert Concat(parts[1..]) == parts[1] + Concat(parts[2..]) == parts[1];
      assert events[0..] == events;
      for i := 0 to |events|
        invariant spec == Some(old(spec.value).(header := header.value)) && events == old(events)
        invariant var rest := PackEvents(events[i..]);
                  PackEvents(events).Some? <==> rest.Some?
        invariant var rest := PackEvents(events[i..]);
                  rest.Some? ==> Concat(parts) + rest.value == packed.value + specData.value + PackEvents(events).value
      {
        assert events[i..][0] == events[i] && events[i..][1..] == events[i + 1..];
        var part := PackEvent(events[i]);
        if part.None? { return None; }
        ConcatLast(parts, part.value);
        parts := parts + [part.value];
      }
      assert events[|events|..] == [] && Concat(parts) + [] == Concat(parts);
      var out := Join(parts);
      r := Some(out);
    }

    static method PackSpecParts(spec: Spec) returns (r: Option<bytes>)
      ensures r == PackSpecData(spec)
    {
      hide PackPart, Le;
      var specHeader := PackPart(Some(spec.specHeader));
      if specHeader.None? { return None; }
      var parts := [specHeader.value];
      assert Concat(parts) == specHeader.value + Concat([]) == specHeader.value;
      assert spec.algorithms[0..] == spec.algorithms;
      for i := 0 to |spec.algorithms|
        invariant var rest := PackAlgorithms(spec.algorithms[i..]);
                  PackAlgorithms(spec.algorithms).Some? <==> rest.Some?
        invariant var rest := PackAlgorithms(spec.algorithms[i..]);
                  rest.Some? ==> Concat(parts) + rest.value == specHeader.value + PackAlgorithms(spec.algorithms).value
      {
        assert spec.algorithms[i..][0] == spec.algorithms[i] && spec.algorithms[i..][1..] == spec.algorithms[i + 1..];
        var part := PackPart(Some(spec.algorithms[i]));
        if part.None? { return None; }
        ConcatLast(parts, part.value);
        parts := parts + [part.value];
      }
      assert spec.algorithms[|spec.algorithms|..] == [] && Concat(parts) + [] == Concat(parts);
      ConcatLast(parts, Le(|spec.vendorInfo|, 1));
      ConcatLast(parts + [Le(|spec.vendorInfo|, 1)], spec.vendorInfo);
      parts := parts + [Le(|spec.vendorInfo|, 1)] + [spec.vendorInfo];
      var out := Join(parts);
      r := Some(out);
    }
  }
}
