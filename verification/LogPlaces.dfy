/** Which bytes of an event log each part of it is read from (sections 10.2 and 10.4.5 of the TCG PC Client Platform Firmware
    Profile 1.05), without the functions that take a log apart. */
module LogPlaces {
  import opened Bytes
  import opened Schema
  import opened Records
  import opened FieldPlaces
  import opened CcelLog

  // ----- the event types

  /** The numbers that have a name. */
  const KNOWN_TYPES: set<nat> :=
    {0, 1, 3, 4, 5, 6, 7, 8, 9, 10, 11, 12, 15, 16, 17, 18,
     0x8000_0000, 0x8000_0001, 0x8000_0002, 0x8000_0003, 0x8000_0004, 0x8000_0005, 0x8000_0006, 0x8000_0007,
     0x8000_0008, 0x8000_0009, 0x8000_000A, 0x8000_000B, 0x8000_0010, 0x8000_00E0, 0x8000_00E1, 0x8000_00E2}

  lemma KnownIs(value: nat)
    ensures KnownEventType(value) <==> value in KNOWN_TYPES
  {
  }

  // ----- one event

  /** Digests one behind the other from `at` to `end`: the algorithm in two bytes, and as many bytes as its size. */
  predicate DigestsAt(data: bytes, at: nat, sizes: map<nat, nat>, digests: seq<Digest>, end: nat)
    decreases |digests|
  {
    if digests == [] then at == end
    else
      && at + 2 <= |data| && digests[0].algorithm == Low2(data, at) && digests[0].algorithm in sizes
      && var next := at + 2 + sizes[digests[0].algorithm];
      digests[0].bytes == Slice(data, at + 2, next) && DigestsAt(data, next, sizes, digests[1..], end)
  }

  lemma {:induction false} DigestsAre(data: bytes, at: nat, sizes: map<nat, nat>, digests: seq<Digest>, end: nat)
    ensures DigestsAt(data, at, sizes, digests, end) <==> UnpackDigests(data, at, |digests|, sizes) == Some((digests, end))
    decreases |digests|
  {
    hide Get, Slice, Low2;
    if digests != [] {
      GetIs(data, at);
      if at + 2 <= |data| && Low2(data, at) in sizes {
        var next := at + 2 + sizes[Low2(data, at)];
        DigestsAre(data, next, sizes, digests[1..], end);
        DigestsSplit(data, at, digests, sizes, end);
      }
    }
  }

  lemma FirstDigest(data: bytes, at: nat, count: nat, sizes: map<nat, nat>)
    requires count > 0 && at + 2 <= |data| && Low2(data, at) in sizes
    ensures var id := Low2(data, at);
            var next := at + 2 + sizes[id];
            var rest := UnpackDigests(data, next, count - 1, sizes);
            UnpackDigests(data, at, count, sizes) ==
              if rest.None? then None else Some(([Digest(id, Slice(data, at + 2, next))] + rest.value.0, rest.value.1))
  {
    hide Get, Slice, Low2;
    GetIs(data, at);
  }

  lemma DigestsSplit(data: bytes, at: nat, digests: seq<Digest>, sizes: map<nat, nat>, end: nat)
    requires digests != [] && at + 2 <= |data| && Low2(data, at) in sizes
    ensures var id := Low2(data, at);
            var next := at + 2 + sizes[id];
            UnpackDigests(data, at, |digests|, sizes) == Some((digests, end)) <==>
              digests[0] == Digest(id, Slice(data, at + 2, next))
              && UnpackDigests(data, next, |digests| - 1, sizes) == Some((digests[1..], end))
  {
    hide Slice, Low2, UnpackDigests;
    var next := at + 2 + sizes[Low2(data, at)];
    var first := Digest(Low2(data, at), Slice(data, at + 2, next));
    FirstDigest(data, at, |digests|, sizes);
    assert digests == [digests[0]] + digests[1..];
    var rest := UnpackDigests(data, next, |digests| - 1, sizes);
    if rest.Some? {
      SameFirst(first, rest.value.0, digests);
    }
  }

  lemma SameFirst(first: Digest, rest: seq<Digest>, digests: seq<Digest>)
    requires digests != []
    ensures [first] + rest == digests <==> first == digests[0] && rest == digests[1..]
  {
    assert ([first] + rest)[1..] == rest;
  }

  /** An event from `at` to `end`: register, type and number of digests in four bytes each, the digests, the size of its data in
      four bytes, and its data, as far as there are any. It is reported for the runtime register of one number less. */
  predicate EventAt(data: bytes, at: nat, sizes: map<nat, nat>, sizeAt: nat, e: Event, end: nat) {
    && at + 12 <= |data|
    && e.pcrIndex == Low4(data, at) && e.eventType == Low4(data, at + 4) && |e.digests| == Low4(data, at + 8)
    && e.eventType in KNOWN_TYPES && e.rtmr == e.pcrIndex - 1
    && DigestsAt(data, at + 12, sizes, e.digests, sizeAt)
    && sizeAt + 4 <= |data| && e.eventSize == Low4(data, sizeAt)
    && end == sizeAt + 4 + e.eventSize && e.eventData == Slice(data, sizeAt + 4, end)
  }

  lemma EventHeaderNumbers(b: bytes)
    requires |b| >= 12
    ensures Unpack(EVENT2_HEADER, b).Some?
    ensures var h := Unpack(EVENT2_HEADER, b).value;
            Num(h, "pcr_index") == Low4(b, 0) && Num(h, "event_type") == Low4(b, 4) && Num(h, "digest_count") == Low4(b, 8)
  {
    hide Unpack, Low4, Solid;
    Event2HeaderTable();
    CcelLog.Places();
    NumberOf(EVENT2_HEADER, 0, "pcr_index", 4, 0, b);
    NumberOf(EVENT2_HEADER, 1, "event_type", 4, 4, b);
    NumberOf(EVENT2_HEADER, 2, "digest_count", 4, 8, b);
  }

  /** The header of the event at `at`. */
  lemma HeaderAt(data: bytes, at: nat)
    ensures Unpack(EVENT2_HEADER, Slice(data, at, |data|)).Some? <==> at + 12 <= |data|
    ensures at + 12 <= |data| ==>
              var h := Unpack(EVENT2_HEADER, Slice(data, at, |data|)).value;
              && Num(h, "pcr_index") == Low4(data, at) && Num(h, "event_type") == Low4(data, at + 4)
              && Num(h, "digest_count") == Low4(data, at + 8)
  {
    hide Unpack, Solid;
    Event2HeaderTable();
    HeaderFits(EVENT2_HEADER, Slice(data, at, |data|));
    if at + 12 <= |data| {
      EventHeaderNumbers(Slice(data, at, |data|));
    }
  }

  /** An event that lies there is read. */
  lemma EventIs(data: bytes, at: nat, header: Value, sizes: map<nat, nat>, e: Event, end: nat, sizeAt: nat)
    requires EventAt(data, at, sizes, sizeAt, e, end)
    requires Num(header, "pcr_index") == Low4(data, at) && Num(header, "event_type") == Low4(data, at + 4)
    requires Num(header, "digest_count") == Low4(data, at + 8)
    ensures UnpackEvent(data, at, header, sizes) == Some((e, end))
  {
    hide Get, Slice, Low4, Num, KnownEventType, KNOWN_TYPES, UnpackDigests, DigestsAt;
    KnownIs(Low4(data, at + 4));
    DigestsAre(data, at + 12, sizes, e.digests, sizeAt);
    GetIs(data, sizeAt);
  }

  /** What is read lies there. */
  lemma EventSaid(data: bytes, at: nat, header: Value, sizes: map<nat, nat>) returns (sizeAt: nat)
    requires at + 12 <= |data|
    requires Num(header, "pcr_index") == Low4(data, at) && Num(header, "event_type") == Low4(data, at + 4)
    requires Num(header, "digest_count") == Low4(data, at + 8)
    requires UnpackEvent(data, at, header, sizes).Some?
    ensures var (e, end) := UnpackEvent(data, at, header, sizes).value; EventAt(data, at, sizes, sizeAt, e, end)
  {
    hide Get, Slice, Low4, Num, KnownEventType, KNOWN_TYPES, UnpackDigests, DigestsAt;
    KnownIs(Low4(data, at + 4));
    DigestsCounted(data, at + 12, Low4(data, at + 8), sizes);
    var digests := UnpackDigests(data, at + 12, Low4(data, at + 8), sizes).value.0;
    sizeAt := UnpackDigests(data, at + 12, Low4(data, at + 8), sizes).value.1;
    DigestsAre(data, at + 12, sizes, digests, sizeAt);
    GetIs(data, sizeAt);
  }

  lemma {:induction false} DigestsCounted(data: bytes, at: nat, count: nat, sizes: map<nat, nat>)
    requires UnpackDigests(data, at, count, sizes).Some?
    ensures |UnpackDigests(data, at, count, sizes).value.0| == count
    decreases count
  {
    hide Get, Slice;
    if count > 0 {
      var id := Get(data, at, 2).value;
      DigestsCounted(data, at + 2 + sizes[id], count - 1, sizes);
    }
  }

  // ----- all events

  /** Where each event begins, the last number being where the reading stops: at the end of the data or behind it, or at a header
      of twelve bytes that begins with 255 four times. */
  predicate EventsAt(data: bytes, sizes: map<nat, nat>, events: seq<Event>, starts: seq<nat>, sizesAt: seq<nat>) {
    && |starts| == |events| + 1 && |sizesAt| == |events|
    && (forall k | 0 <= k < |events| :: NextEvent(data, starts[k], sizes, sizesAt[k], events[k], starts[k + 1]))
    && StopsAt(data, starts[|events|])
  }

  predicate NextEvent(data: bytes, at: nat, sizes: map<nat, nat>, sizeAt: nat, e: Event, end: nat) {
    at + 12 <= |data| && Low4(data, at) != 0xffff_ffff && EventAt(data, at, sizes, sizeAt, e, end)
  }

  predicate StopsAt(data: bytes, at: nat) {
    at >= |data| || (at + 12 <= |data| && Low4(data, at) == 0xffff_ffff)
  }

  lemma NoEvents(data: bytes, at: nat, sizes: map<nat, nat>)
    ensures UnpackEvents(data, at, sizes) == Some([]) <==> StopsAt(data, at)
  {
    hide Unpack, UnpackEvent, Low4;
    if at < |data| {
      HeaderAt(data, at);
    }
  }

  lemma EventsStep(data: bytes, at: nat, sizes: map<nat, nat>, e: Event, end: nat, rest: seq<Event>, sizeAt: nat)
    requires NextEvent(data, at, sizes, sizeAt, e, end)
    requires UnpackEvents(data, end, sizes) == Some(rest)
    ensures UnpackEvents(data, at, sizes) == Some([e] + rest)
  {
    hide Unpack, UnpackEvent, Low4, EventAt;
    HeaderAt(data, at);
    EventInside(data, at, sizes, sizeAt, e, end);
    EventIs(data, at, Unpack(EVENT2_HEADER, Slice(data, at, |data|)).value, sizes, e, end, sizeAt);
  }

  /** Events that lie so are read. */
  lemma {:induction false} EventsAre(data: bytes, sizes: map<nat, nat>, events: seq<Event>, starts: seq<nat>, sizesAt: seq<nat>)
    requires EventsAt(data, sizes, events, starts, sizesAt)
    ensures UnpackEvents(data, starts[0], sizes) == Some(events)
    decreases |events|
  {
    hide UnpackEvents, NextEvent, StopsAt;
    if events == [] {
      NoEvents(data, starts[0], sizes);
    } else {
      EventsAre(data, sizes, events[1..], starts[1..], sizesAt[1..]);
      EventsStep(data, starts[0], sizes, events[0], starts[1], events[1..], sizesAt[0]);
      assert [events[0]] + events[1..] == events;
    }
  }

  /** The first event of those that are read. */
  lemma FirstEvent(data: bytes, at: nat, sizes: map<nat, nat>) returns (sizeAt: nat, e: Event, end: nat)
    requires UnpackEvents(data, at, sizes).Some? && UnpackEvents(data, at, sizes) != Some([])
    ensures NextEvent(data, at, sizes, sizeAt, e, end) && UnpackEvents(data, end, sizes).Some? && at < end && at < |data|
    ensures UnpackEvents(data, at, sizes).value == [e] + UnpackEvents(data, end, sizes).value
  {
    hide Unpack, UnpackEvent, Low4, EventAt, Num, UnpackDigests;
    HeaderAt(data, at);
    var header := Unpack(EVENT2_HEADER, Slice(data, at, |data|)).value;
    e, end := UnpackEvent(data, at, header, sizes).value.0, UnpackEvent(data, at, header, sizes).value.1;
    sizeAt := EventSaid(data, at, header, sizes);
    EventEnds(data, at, sizes, sizeAt, e, end);
  }

  /** What is read lies so. */
  lemma {:induction false} EventsLie(data: bytes, at: nat, sizes: map<nat, nat>) returns (starts: seq<nat>, sizesAt: seq<nat>)
    requires UnpackEvents(data, at, sizes).Some?
    ensures EventsAt(data, sizes, UnpackEvents(data, at, sizes).value, starts, sizesAt) && starts[0] == at
    decreases |data| - at
  {
    hide UnpackEvents, NextEvent, StopsAt;
    NoEvents(data, at, sizes);
    if UnpackEvents(data, at, sizes) == Some([]) {
      starts, sizesAt := [at], [];
    } else {
      var sizeAt, e, end := FirstEvent(data, at, sizes);
      var starts', sizesAt' := EventsLie(data, end, sizes);
      starts, sizesAt := [at] + starts', [sizeAt] + sizesAt';
      EventsMore(data, at, sizes, sizeAt, e, end, UnpackEvents(data, end, sizes).value, starts', sizesAt');
    }
  }

  lemma EventsMore(data: bytes, at: nat, sizes: map<nat, nat>, sizeAt: nat, e: Event, end: nat,
                   events: seq<Event>, starts: seq<nat>, sizesAt: seq<nat>)
    requires NextEvent(data, at, sizes, sizeAt, e, end) && EventsAt(data, sizes, events, starts, sizesAt) && starts[0] == end
    ensures EventsAt(data, sizes, [e] + events, [at] + starts, [sizeAt] + sizesAt)
  {
    hide NextEvent, StopsAt;
    var all, from, ends := [e] + events, [at] + starts, [sizeAt] + sizesAt;
    forall k | 0 <= k < |all| ensures NextEvent(data, from[k], sizes, ends[k], all[k], from[k + 1]) {
      if k > 0 {
        assert NextEvent(data, starts[k - 1], sizes, sizesAt[k - 1], events[k - 1], starts[k]);
      }
    }
  }

  lemma EventInside(data: bytes, at: nat, sizes: map<nat, nat>, sizeAt: nat, e: Event, end: nat)
    requires EventAt(data, at, sizes, sizeAt, e, end)
    ensures at + 12 <= |data|
  {
  }

  lemma EventEnds(data: bytes, at: nat, sizes: map<nat, nat>, sizeAt: nat, e: Event, end: nat)
    requires EventAt(data, at, sizes, sizeAt, e, end)
    ensures at < end && at < |data|
  {
    hide Slice, Low4, KNOWN_TYPES, UnpackDigests, DigestsAt;
    DigestsAre(data, at + 12, sizes, e.digests, sizeAt);
    DigestsEnd(data, at + 12, |e.digests|, sizes);
  }

  // ----- the specification event

  lemma AlgorithmNumbers(b: bytes)
    requires |b| >= 4
    ensures Unpack(ALGORITHM_SIZE, b).Some?
    ensures var a := Unpack(ALGORITHM_SIZE, b).value;
            Num(a, "algorithm_id") == Low2(b, 0) && Num(a, "digest_size") == Low2(b, 2)
  {
    hide Unpack, Low2, Solid;
    AlgorithmSizeTable();
    NoOffset(ALGORITHM_SIZE.fields);
    OffsetStep(ALGORITHM_SIZE.fields, 1);
    NumberOf(ALGORITHM_SIZE, 0, "algorithm_id", 2, 0, b);
    NumberOf(ALGORITHM_SIZE, 1, "digest_size", 2, 2, b);
  }

  lemma AlgorithmRead(spec: bytes, at: nat)
    ensures Unpack(ALGORITHM_SIZE, Slice(spec, at, |spec|)).Some? <==> at + 4 <= |spec|
    ensures at + 4 <= |spec| ==>
              var a := Unpack(ALGORITHM_SIZE, Slice(spec, at, |spec|)).value;
              Num(a, "algorithm_id") == Low2(spec, at) && Num(a, "digest_size") == Low2(spec, at + 2)
  {
    hide Unpack, Solid;
    AlgorithmSizeTable();
    HeaderFits(ALGORITHM_SIZE, Slice(spec, at, |spec|));
    if at + 4 <= |spec| {
      AlgorithmNumbers(Slice(spec, at, |spec|));
    }
  }

  /** An algorithm of the specification event: its number and its digest size, in two bytes each. */
  predicate AlgorithmHere(spec: bytes, at: nat, algorithm: Value) {
    && at + 4 <= |spec|
    && Num(algorithm, "algorithm_id") == Low2(spec, at) && Num(algorithm, "digest_size") == Low2(spec, at + 2)
  }

  lemma OneAlgorithm(spec: bytes, at: nat)
    ensures Unpack(ALGORITHM_SIZE, Slice(spec, at, |spec|)).Some? <==> at + 4 <= |spec|
    ensures at + 4 <= |spec| ==> AlgorithmHere(spec, at, Unpack(ALGORITHM_SIZE, Slice(spec, at, |spec|)).value)
  {
    hide Unpack, Slice;
    AlgorithmRead(spec, at);
  }

  lemma {:induction false} AlgorithmsRead(spec: bytes, at: nat, count: nat)
    ensures UnpackAlgorithms(spec, at, count).Some? <==> count == 0 || at + 4 * count <= |spec|
    ensures UnpackAlgorithms(spec, at, count).Some? ==>
              var algorithms := UnpackAlgorithms(spec, at, count).value;
              |algorithms| == count && forall i | 0 <= i < count :: AlgorithmHere(spec, at + 4 * i, algorithms[i])
    decreases count
  {
    hide Unpack, AlgorithmHere, Slice;
    if count > 0 {
      OneAlgorithm(spec, at);
      AlgorithmsRead(spec, at + 4, count - 1);
      if UnpackAlgorithms(spec, at, count).Some? {
        var algorithms, rest := UnpackAlgorithms(spec, at, count).value, UnpackAlgorithms(spec, at + 4, count - 1).value;
        forall i | 0 <= i < count ensures AlgorithmHere(spec, at + 4 * i, algorithms[i]) {
          if i > 0 {
            assert AlgorithmHere(spec, (at + 4) + 4 * (i - 1), rest[i - 1]);
          }
        }
      }
    }
  }

  lemma SizesLast(algorithms: seq<Value>)
    requires algorithms != []
    ensures var n := |algorithms| - 1;
            SizeMap(algorithms) ==
              SizeMap(algorithms[..n])[Num(algorithms[n], "algorithm_id") := Num(algorithms[n], "digest_size")]
  {
    hide Num;
  }

  /** The size of an algorithm's digests is that of its last entry. */
  lemma {:induction false} SizesAre(algorithms: seq<Value>, id: nat)
    ensures id in SizeMap(algorithms) <==> exists i: nat :: LastOf(algorithms, id, i)
    ensures forall i: nat | LastOf(algorithms, id, i) :: SizeMap(algorithms)[id] == Num(algorithms[i], "digest_size")
    decreases |algorithms|
  {
    hide Num, SizeMap;
    var n := |algorithms| - 1;
    if algorithms == [] {
      NoSizesAtAll();
    } else {
      SizesLast(algorithms);
      if Num(algorithms[n], "algorithm_id") == id {
        assert LastOf(algorithms, id, n);
        assert forall i: nat | LastOf(algorithms, id, i) :: i == n;
      } else {
        SizesAre(algorithms[..n], id);
        forall i: nat ensures LastOf(algorithms, id, i) <==> LastOf(algorithms[..n], id, i) {
          LastEarlier(algorithms, id, i);
        }
      }
    }
  }

  lemma NoSizesAtAll()
    ensures SizeMap([]) == map[]
  {
  }

  lemma LastEarlier(algorithms: seq<Value>, id: nat, i: nat)
    requires algorithms != [] && Num(algorithms[|algorithms| - 1], "algorithm_id") != id
    ensures LastOf(algorithms, id, i) <==> LastOf(algorithms[..|algorithms| - 1], id, i)
  {
    hide Num;
  }

  predicate LastOf(algorithms: seq<Value>, id: nat, i: nat) {
    && i < |algorithms| && Num(algorithms[i], "algorithm_id") == id
    && forall j | i < j < |algorithms| :: Num(algorithms[j], "algorithm_id") != id
  }

  lemma SpecHeaderNumber(b: bytes)
    requires |b| >= 28
    ensures Unpack(SPEC_HEADER, b).Some?
    ensures Num(Unpack(SPEC_HEADER, b).value, "number_of_algorithms") == Low4(b, 24)
  {
    hide Unpack, Low4, Solid;
    SpecHeaderTable();
    CcelLog.Places();
    NumberOf(SPEC_HEADER, 6, "number_of_algorithms", 4, 24, b);
  }

  lemma HeaderNumber(b: bytes)
    requires |b| >= 32
    ensures Unpack(EVENT_HEADER, b).Some?
    ensures Num(Unpack(EVENT_HEADER, b).value, "event_data_size") == Low4(b, 28)
  {
    hide Unpack, Low4, Solid;
    EventHeaderTable();
    CcelLog.Places();
    NumberOf(EVENT_HEADER, 3, "event_data_size", 4, 28, b);
  }

  // ----- the whole log

  /** The specification event: a header of 32 bytes that ends with the size of the event, and in the event a header of 28 bytes
      that ends with the number of algorithms, the algorithms, and the size of the vendor's bytes in one byte. */
  predicate SpecFits(data: bytes) {
    && |data| >= 32
    && var spec := Slice(data, 32, 32 + Low4(data, 28));
    |spec| >= 28 && 28 + 4 * Low4(spec, 24) < |spec|
  }

  /** A log is read exactly when its specification event is there and the events behind it are read; then its parts are those
      bytes. */
  lemma LogIs(data: bytes)
    requires data != []
    ensures UnpackLog(data).Some? ==> SpecFits(data)
    ensures SpecFits(data) ==>
              var spec := Slice(data, 32, 32 + Low4(data, 28));
              var count := Low4(spec, 24);
              var algorithms := UnpackAlgorithms(spec, 28, count);
              && algorithms.Some? && |algorithms.value| == count
              && (forall i | 0 <= i < count :: AlgorithmHere(spec, 28 + 4 * i, algorithms.value[i]))
              && var events := UnpackEvents(data, 32 + Low4(data, 28), SizeMap(algorithms.value));
              && (UnpackLog(data).Some? <==> events.Some?)
              && (events.Some? ==>
                    var log := UnpackLog(data).value;
                    && log.events == events.value && log.spec.Some?
                    && log.spec.value.algorithms == algorithms.value && log.spec.value.rawEventData == spec
                    && log.spec.value.vendorInfo == Slice(spec, 29 + 4 * count, 29 + 4 * count + spec[28 + 4 * count]))
  {
    hide Unpack, Low4, AlgorithmHere, Num, Slice, Solid, UnpackEvents, UnpackAlgorithms, SizeMap;
    EventHeaderTable();
    SpecHeaderTable();
    HeaderFits(EVENT_HEADER, data);
    if |data| >= 32 {
      HeaderNumber(data);
      var spec := Slice(data, 32, 32 + Low4(data, 28));
      HeaderFits(SPEC_HEADER, spec);
      if |spec| >= 28 {
        SpecHeaderNumber(spec);
        AlgorithmsRead(spec, 28, Low4(spec, 24));
        GetIs(spec, 28 + 4 * Low4(spec, 24));
      }
    }
  }
}
