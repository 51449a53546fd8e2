/** Which quotes are accepted, and which of their bytes each part and each field of the body is (Intel TDX DCAP Quoting Library,
    "Quote Format"), without the functions that take a quote apart. */
module QuotePlaces {
  import opened Bytes
  import opened Schema
  import opened Records
  import opened FieldPlaces
  import opened TdxQuote

  // ----- records and their numbers

  lemma TakeFits(schema: Schema, data: bytes, at: nat)
    requires Sized(schema)
    ensures Take(schema, data, at).Some? <==> at + Size(schema) <= |data|
    ensures at + Size(schema) <= |data| ==> Take(schema, data, at) == Unpack(schema, data[at..at + Size(schema)])
  {
    hide Solid, Size;
    UnpackPacks(schema, Slice(data, at, at + Size(schema)));
  }

  lemma VersionIs(data: bytes)
    requires |data| >= 48
    ensures Unpack(TDX_QUOTE_HEADER, data).Some?
    ensures Num(Unpack(TDX_QUOTE_HEADER, data).value, "version") == Low2(data, 0)
  {
    hide Unpack, Low2, Solid;
    TdxQuoteHeaderTable();
    NoOffset(TDX_QUOTE_HEADER.fields);
    NumberOf(TDX_QUOTE_HEADER, 0, "version", 2, 0, data);
  }

  lemma DescriptorIs(b: bytes)
    requires |b| == 6
    ensures Unpack(TD_QUOTE_BODY_DESCRIPTOR, b).Some?
    ensures var d := Unpack(TD_QUOTE_BODY_DESCRIPTOR, b).value;
            Num(d, "type") == Low2(b, 0) && Num(d, "size") == Low4(b, 2)
  {
    hide Unpack, Low2, Low4, Solid;
    TdQuoteBodyDescriptorTable();
    NoOffset(TD_QUOTE_BODY_DESCRIPTOR.fields);
    OffsetStep(TD_QUOTE_BODY_DESCRIPTOR.fields, 1);
    NumberOf(TD_QUOTE_BODY_DESCRIPTOR, 0, "type", 2, 0, b);
    NumberOf(TD_QUOTE_BODY_DESCRIPTOR, 1, "size", 4, 2, b);
  }

  lemma CertHeaderIs(b: bytes)
    requires |b| == 6
    ensures Unpack(CERTIFICATION_DATA_HEADER, b).Some?
    ensures var d := Unpack(CERTIFICATION_DATA_HEADER, b).value;
            Num(d, "type") == Low2(b, 0) && Num(d, "size") == Low4(b, 2)
  {
    hide Unpack, Low2, Low4, Solid;
    CertificationDataHeaderTable();
    NoOffset(CERTIFICATION_DATA_HEADER.fields);
    OffsetStep(CERTIFICATION_DATA_HEADER.fields, 1);
    NumberOf(CERTIFICATION_DATA_HEADER, 0, "type", 2, 0, b);
    NumberOf(CERTIFICATION_DATA_HEADER, 1, "size", 4, 2, b);
  }

  lemma AuthSizeIs(b: bytes)
    requires |b| == 450
    ensures Unpack(QE_REPORT_CERT_DATA, b).Some?
    ensures Num(Unpack(QE_REPORT_CERT_DATA, b).value, "qe_auth_data_size") == Low2(b, 448)
  {
    hide Unpack, Low2, Solid;
    QeReportCertDataTable();
    EnclaveReportTable();
    Ecdsa256SignatureTable();
    NoOffset(QE_REPORT_CERT_DATA.fields);
    OffsetStep(QE_REPORT_CERT_DATA.fields, 1);
    OffsetStep(QE_REPORT_CERT_DATA.fields, 2);
    NumberOf(QE_REPORT_CERT_DATA, 2, "qe_auth_data_size", 2, 448, b);
  }

  lemma PieceNumbers(data: bytes, at: nat, n: nat, i: nat)
    requires at + n <= |data|
    ensures i + 2 <= n ==> Low2(data[at..at + n], i) == Low2(data, at + i)
    ensures i + 4 <= n ==> Low4(data[at..at + n], i) == Low4(data, at + i)
  {
  }

  // ----- the signed part

  /** The body lies from `from` to `to`: behind the 48 bytes of the header in version 4, and behind six more, which name a body
      of type 2 or 3 by its type and its size, in version 5. */
  predicate BodyAt(data: bytes, from: nat, to: nat) {
    && 48 <= from <= to <= |data|
    && (if Low2(data, 0) == 4 then from == 48 && to == 48 + 584
        else
          && Low2(data, 0) == 5 && from == 54
          && ((Low2(data, 48) == 2 && Low4(data, 50) == 584 && to == 54 + 584)
              || (Low2(data, 48) == 3 && Low4(data, 50) == 648 && to == 54 + 648)))
  }

  /** The class of a body of this size. */
  function BodyClass(size: nat): Schema {
    if size == 584 then TD_QUOTE_BODY_V4 else TD_QUOTE_BODY_V5
  }

  lemma Sizes()
    ensures SolidClasses(CLASSES)
    ensures Size(TDX_QUOTE_HEADER) == 48 && Size(TD_QUOTE_BODY_DESCRIPTOR) == 6 && Size(TD_QUOTE_BODY_V4) == 584
    ensures Size(TD_QUOTE_BODY_V5) == 648 && Size(ECDSA_SIGNATURE_DATA) == 132 && Size(CERTIFICATION_DATA_HEADER) == 6
    ensures Size(QE_REPORT_CERT_DATA) == 450 && Size(ENCLAVE_REPORT) == 384
  {
    hide Solid, Size;
    QuoteClassesAreSolid();
    TdxQuoteHeaderTable();
    TdQuoteBodyDescriptorTable();
    TdQuoteBodyV4Table();
    TdQuoteBodyV5Table();
    EcdsaSignatureDataTable();
    CertificationDataHeaderTable();
    QeReportCertDataTable();
    EnclaveReportTable();
  }

  lemma HeaderFits(data: bytes)
    ensures Unpack(TDX_QUOTE_HEADER, data).Some? <==> |data| >= 48
  {
    hide Solid, Size;
    TdxQuoteHeaderTable();
    UnpackPacks(TDX_QUOTE_HEADER, data);
  }

  lemma DescriptorRead(data: bytes)
    ensures Take(TD_QUOTE_BODY_DESCRIPTOR, data, 48).Some? <==> |data| >= 54
    ensures |data| >= 54 ==>
              var d := Take(TD_QUOTE_BODY_DESCRIPTOR, data, 48).value;
              && Take(TD_QUOTE_BODY_DESCRIPTOR, data, 48) == Unpack(TD_QUOTE_BODY_DESCRIPTOR, data[48..54])
              && Num(d, "type") == Low2(data, 48) && Num(d, "size") == Low4(data, 50)
  {
    hide Solid, Unpack, Take, Low2, Low4;
    TdQuoteBodyDescriptorTable();
    TakeFits(TD_QUOTE_BODY_DESCRIPTOR, data, 48);
    if |data| >= 54 {
      DescriptorIs(data[48..54]);
      PieceNumbers(data, 48, 6, 0);
      PieceNumbers(data, 48, 6, 2);
    }
  }

  /** With a body there, the signed records are read from the header, the descriptor, if there is one, and the body. */
  lemma SignedIs(data: bytes, from: nat, to: nat) returns (s: Signed)
    requires BodyAt(data, from, to)
    ensures ReadSigned(CLASSES, data) == Some(s) && s.end == to
    ensures Unpack(TDX_QUOTE_HEADER, data) == Some(s.header)
    ensures s.descriptor == if from == 48 then None else Unpack(TD_QUOTE_BODY_DESCRIPTOR, data[48..54])
    ensures Unpack(BodyClass(to - from), data[from..to]) == Some(s.body)
  {
    hide Solid, Unpack, Take, Low2, Low4, Num, Size;
    Sizes();
    HeaderFits(data);
    VersionIs(data);
    DescriptorRead(data);
    TakeFits(BodyClass(to - from), data, from);
    s := ReadSigned(CLASSES, data).value;
  }

  /** They are read only then. */
  lemma SignedSays(data: bytes) returns (from: nat, to: nat)
    requires ReadSigned(CLASSES, data).Some?
    ensures BodyAt(data, from, to)
  {
    hide Solid, Unpack, Take, Low2, Low4, Num, Size;
    Sizes();
    HeaderFits(data);
    VersionIs(data);
    DescriptorRead(data);
    to := ReadSigned(CLASSES, data).value.end;
    from := if Low2(data, 0) == 4 then 48 else 54;
    TakeFits(TD_QUOTE_BODY_V4, data, from);
    TakeFits(TD_QUOTE_BODY_V5, data, from);
  }

  // ----- the whole quote

  /** Behind the signed part: 132 bytes of signature data, and a header of type and size. Data of type 6 are 450 bytes, which end
      with the size of what follows, that, and another header; data of type 5 follow at once. */
  predicate CertAt(data: bytes, to: nat) {
    && to + 138 <= |data|
    && (|| Low2(data, to + 132) == 5
        || (&& Low2(data, to + 132) == 6 && to + 138 + 450 <= |data|
            && to + 588 + Low2(data, to + 586) + 6 <= |data|))
  }

  lemma CertHeaderRead(data: bytes, at: nat)
    ensures Take(CERTIFICATION_DATA_HEADER, data, at).Some? <==> at + 6 <= |data|
    ensures at + 6 <= |data| ==>
              var d := Take(CERTIFICATION_DATA_HEADER, data, at).value;
              Num(d, "type") == Low2(data, at) && Num(d, "size") == Low4(data, at + 2)
  {
    hide Solid, Unpack, Take, Low2, Low4;
    CertificationDataHeaderTable();
    TakeFits(CERTIFICATION_DATA_HEADER, data, at);
    if at + 6 <= |data| {
      CertHeaderIs(data[at..at + 6]);
      PieceNumbers(data, at, 6, 0);
      PieceNumbers(data, at, 6, 2);
    }
  }

  lemma AuthSizeRead(data: bytes, at: nat)
    ensures Take(QE_REPORT_CERT_DATA, data, at).Some? <==> at + 450 <= |data|
    ensures at + 450 <= |data| ==>
              Num(Take(QE_REPORT_CERT_DATA, data, at).value, "qe_auth_data_size") == Low2(data, at + 448)
  {
    hide Solid, Unpack, Take, Low2;
    QeReportCertDataTable();
    TakeFits(QE_REPORT_CERT_DATA, data, at);
    if at + 450 <= |data| {
      AuthSizeIs(data[at..at + 450]);
      PieceNumbers(data, at, 450, 448);
    }
  }

  /** Certification data whose header has been read. */
  lemma CertIs(data: bytes, q: Quote, at: nat)
    ensures Num(q.certHeader, "type") == 5 ==>
              UnpackCert(CLASSES, data, q, at) == Some(q.(chain := Slice(data, at, at + Num(q.certHeader, "size"))))
    ensures Num(q.certHeader, "type") != 5 && Num(q.certHeader, "type") != 6 ==> UnpackCert(CLASSES, data, q, at).None?
    ensures Num(q.certHeader, "type") == 6 ==>
              (UnpackCert(CLASSES, data, q, at).Some? <==>
                 at + 450 <= |data| && at + 450 + Low2(data, at + 448) + 6 <= |data|)
    ensures Num(q.certHeader, "type") == 6 && UnpackCert(CLASSES, data, q, at).Some? ==>
              var r := UnpackCert(CLASSES, data, q, at).value;
              var pck := at + 450 + Low2(data, at + 448);
              && r.raw == q.raw && r.rawQeReport == data[at..at + 384] && r.qeAuth == Some(data[at + 450..pck])
              && r.chain == Slice(data, pck + 6, pck + 6 + Low4(data, pck + 2))
  {
    hide Solid, Unpack, Take, Low2, Low4, Num, Size;
    Sizes();
    AuthSizeRead(data, at);
    if at + 450 <= |data| {
      CertHeaderRead(data, at + 450 + Low2(data, at + 448));
    }
  }

  /** A quote is accepted exactly when its signed part and its certification data lie in it whole, but for the certificates at its
      end. The bytes kept for the signature check are those in front of the end of the body; the certificates are as many bytes
      as the last header says, as far as there are any. */
  lemma QuoteIs(data: bytes, from: nat, to: nat)
    requires BodyAt(data, from, to)
    ensures UnpackQuote(CLASSES, data).Some? <==> CertAt(data, to)
    ensures UnpackQuote(CLASSES, data).Some? ==>
              var q := UnpackQuote(CLASSES, data).value;
              && q.raw == data[..to]
              && (Low2(data, to + 132) == 5 ==>
                    q.qeCertData.None? && q.qeAuth.None? && q.chain == Slice(data, to + 138, to + 138 + Low4(data, to + 134)))
              && (Low2(data, to + 132) == 6 ==>
                    var pck := to + 588 + Low2(data, to + 586);
                    && q.rawQeReport == data[to + 138..to + 522] && q.qeAuth == Some(data[to + 588..pck])
                    && q.chain == Slice(data, pck + 6, pck + 6 + Low4(data, pck + 2)))
  {
    hide Solid, Unpack, Take, Low2, Low4, Num, Size, ReadSigned, BodyAt, UnpackCert;
    var s := SignedIs(data, from, to);
    BodyInside(data, from, to);
    Sizes();
    TakeFits(ECDSA_SIGNATURE_DATA, data, to);
    CertHeaderRead(data, to + 132);
    if to + 138 <= |data| {
      var sigData := Take(ECDSA_SIGNATURE_DATA, data, to).value;
      var header := Take(CERTIFICATION_DATA_HEADER, data, to + 132).value;
      CertIs(data, BareQuote(data, s, sigData, header), to + 138);
    }
    assert data[0..to] == data[..to];
  }

  lemma BodyInside(data: bytes, from: nat, to: nat)
    requires BodyAt(data, from, to)
    ensures 48 <= from <= to <= |data|
  {
  }

  /** Nothing is accepted without a signed part. */
  lemma QuoteSays(data: bytes) returns (from: nat, to: nat)
    requires UnpackQuote(CLASSES, data).Some?
    ensures BodyAt(data, from, to)
  {
    hide ReadSigned, BodyAt, UnpackSigned;
    from, to := SignedSays(data);
  }

  // ----- the fields of the body

  /** Where the fields of a body start, and where the last one ends. */
  const BODY_PLACES: seq<nat> := [0, 16, 64, 112, 120, 128, 136, 184, 232, 280, 328, 376, 424, 472, 520, 584, 600, 648]

  lemma BodyPlaces()
    ensures |TD_QUOTE_BODY_V5.fields| == 17 && |BODY_PLACES| == 18 && BODY_PLACES[0] == 0
    ensures Places(TD_QUOTE_BODY_V5.fields, BODY_PLACES, 0, 17)
    ensures TD_QUOTE_BODY_V5.fields[..15] == TD_QUOTE_BODY_V4.fields && |TD_QUOTE_BODY_V4.fields| == 15
  {
    LaterFields();
    var fs := TD_QUOTE_BODY_V4.fields;
    assert forall k | 0 <= k < 15 :: BODY_PLACES[k + 1] == BODY_PLACES[k] + KindSize(fs[k].kind);
    assert forall k | 0 <= k < 15 :: TD_QUOTE_BODY_V5.fields[k] == fs[k];
  }

  lemma LaterFields()
    ensures |TD_QUOTE_BODY_V5.fields| == 17 && |TD_QUOTE_BODY_V4.fields| == 15
    ensures TD_QUOTE_BODY_V5.fields[15] == Field("tee_tcb_svn2", Block(16))
    ensures TD_QUOTE_BODY_V5.fields[16] == Field("mr_service_td", Block(48))
  {
    hide TD_QUOTE_BODY_V4;
    BodyLength();
  }

  lemma BodyLength()
    ensures |TD_QUOTE_BODY_V4.fields| == 15
  {
  }

  lemma {:induction false} SameOffset(xs: seq<Field>, ys: seq<Field>, i: nat)
    requires i <= |xs| <= |ys| && ys[..|xs|] == xs
    ensures Offset(ys, i) == Offset(xs, i)
  {
    hide KindSize;
    if i > 0 {
      SameOffset(xs, ys, i - 1);
      assert xs[i - 1] == ys[i - 1];
    }
  }

  lemma BodyOffset(i: nat)
    requires i < 17
    ensures |TD_QUOTE_BODY_V5.fields| == 17 && |TD_QUOTE_BODY_V4.fields| == 15 && |BODY_PLACES| == 18
    ensures Offset(TD_QUOTE_BODY_V5.fields, i) == BODY_PLACES[i]
    ensures i < 15 ==> Offset(TD_QUOTE_BODY_V4.fields, i) == BODY_PLACES[i]
    ensures i < 15 ==> TD_QUOTE_BODY_V5.fields[i] == TD_QUOTE_BODY_V4.fields[i]
  {
    hide KindSize, Offset, TD_QUOTE_BODY_V4, TD_QUOTE_BODY_V5;
    BodyPlaces();
    PlacesBefore(TD_QUOTE_BODY_V5.fields, BODY_PLACES, i);
    OffsetIsPlace(TD_QUOTE_BODY_V5.fields, BODY_PLACES, i);
    if i < 15 {
      SameOffset(TD_QUOTE_BODY_V4.fields, TD_QUOTE_BODY_V5.fields, i);
      assert TD_QUOTE_BODY_V5.fields[..15][i] == TD_QUOTE_BODY_V5.fields[i];
    }
  }

  lemma PlacesBefore(fields: seq<Field>, places: seq<nat>, m: nat)
    requires m <= |fields| && |places| == |fields| + 1 && Places(fields, places, 0, |fields|)
    ensures Places(fields, places, 0, m)
  {
    hide KindSize;
  }

  /** Field `i` of either body. */
  lemma BodyField(size: nat, b: bytes, i: nat, name: string, at: nat, n: nat)
    requires (size == 584 && i < 15) || (size == 648 && i < 17)
    requires |b| == size && n > 0 && |TD_QUOTE_BODY_V5.fields| == 17 && |BODY_PLACES| == 18
    requires TD_QUOTE_BODY_V5.fields[i] == Field(name, Block(n)) && BODY_PLACES[i] == at
    ensures Unpack(BodyClass(size), b).Some? && at + n <= |b| && Has(Unpack(BodyClass(size), b).value, name, Blob(b[at..at + n]))
  {
    hide Unpack, Offset, KindSize, TD_QUOTE_BODY_V4, TD_QUOTE_BODY_V5, BODY_PLACES;
    BodyOffset(i);
    TdQuoteBodyV4Table();
    TdQuoteBodyV5Table();
    PlainHooks();
    FieldHolds(BodyClass(size), i, at, b);
  }

  lemma PlainHooks()
    ensures TD_QUOTE_BODY_V4.hook == Plain && TD_QUOTE_BODY_V5.hook == Plain
  {
  }

  lemma FirstTable()
    ensures |TD_QUOTE_BODY_V5.fields| == 17 && |BODY_PLACES| == 18
    ensures TD_QUOTE_BODY_V5.fields[0] == Field("tee_tcb_svn", Block(16)) && BODY_PLACES[0] == 0
    ensures TD_QUOTE_BODY_V5.fields[1] == Field("mr_seam", Block(48)) && BODY_PLACES[1] == 16
    ensures TD_QUOTE_BODY_V5.fields[2] == Field("mr_signer_seam", Block(48)) && BODY_PLACES[2] == 64
  {
  }

  lemma FirstFields(size: nat, b: bytes)
    requires |b| == size && size in {584, 648}
    ensures Unpack(BodyClass(size), b).Some?
    ensures var r := Unpack(BodyClass(size), b).value;
            && Has(r, "tee_tcb_svn", Blob(b[0..16])) && Has(r, "mr_seam", Blob(b[16..64]))
            && Has(r, "mr_signer_seam", Blob(b[64..112]))
  {
    hide Has, Unpack, TD_QUOTE_BODY_V4, TD_QUOTE_BODY_V5, BODY_PLACES, BodyClass;
    FirstTable();
    BodyField(size, b, 0, "tee_tcb_svn", 0, 16);
    BodyField(size, b, 1, "mr_seam", 16, 48);
    BodyField(size, b, 2, "mr_signer_seam", 64, 48);
  }

  lemma SecondTable()
    ensures |TD_QUOTE_BODY_V5.fields| == 17 && |BODY_PLACES| == 18
    ensures TD_QUOTE_BODY_V5.fields[3] == Field("seam_attributes", Block(8)) && BODY_PLACES[3] == 112
    ensures TD_QUOTE_BODY_V5.fields[4] == Field("td_attributes", Block(8)) && BODY_PLACES[4] == 120
    ensures TD_QUOTE_BODY_V5.fields[5] == Field("xfam", Block(8)) && BODY_PLACES[5] == 128
  {
  }

  lemma SecondFields(size: nat, b: bytes)
    requires |b| == size && size in {584, 648}
    ensures Unpack(BodyClass(size), b).Some?
    ensures var r := Unpack(BodyClass(size), b).value;
            && Has(r, "seam_attributes", Blob(b[112..120])) && Has(r, "td_attributes", Blob(b[120..128]))
            && Has(r, "xfam", Blob(b[128..136]))
  {
    hide Has, Unpack, TD_QUOTE_BODY_V4, TD_QUOTE_BODY_V5, BODY_PLACES, BodyClass;
    SecondTable();
    BodyField(size, b, 3, "seam_attributes", 112, 8);
    BodyField(size, b, 4, "td_attributes", 120, 8);
    BodyField(size, b, 5, "xfam", 128, 8);
  }

  lemma ThirdTable()
    ensures |TD_QUOTE_BODY_V5.fields| == 17 && |BODY_PLACES| == 18
    ensures TD_QUOTE_BODY_V5.fields[6] == Field("mr_td", Block(48)) && BODY_PLACES[6] == 136
    ensures TD_QUOTE_BODY_V5.fields[7] == Field("mr_config_id", Block(48)) && BODY_PLACES[7] == 184
    ensures TD_QUOTE_BODY_V5.fields[8] == Field("mr_owner", Block(48)) && BODY_PLACES[8] == 232
  {
  }

  lemma ThirdFields(size: nat, b: bytes)
    requires |b| == size && size in {584, 648}
    ensures Unpack(BodyClass(size), b).Some?
    ensures var r := Unpack(BodyClass(size), b).value;
            && Has(r, "mr_td", Blob(b[136..184])) && Has(r, "mr_config_id", Blob(b[184..232]))
            && Has(r, "mr_owner", Blob(b[232..280]))
  {
    hide Has, Unpack, TD_QUOTE_BODY_V4, TD_QUOTE_BODY_V5, BODY_PLACES, BodyClass;
    ThirdTable();
    BodyField(size, b, 6, "mr_td", 136, 48);
    BodyField(size, b, 7, "mr_config_id", 184, 48);
    BodyField(size, b, 8, "mr_owner", 232, 48);
  }

  lemma FourthTable()
    ensures |TD_QUOTE_BODY_V5.fields| == 17 && |BODY_PLACES| == 18
    ensures TD_QUOTE_BODY_V5.fields[9] == Field("mr_owner_config", Block(48)) && BODY_PLACES[9] == 280
    ensures TD_QUOTE_BODY_V5.fields[10] == Field("rtmr0", Block(48)) && BODY_PLACES[10] == 328
    ensures TD_QUOTE_BODY_V5.fields[11] == Field("rtmr1", Block(48)) && BODY_PLACES[11] == 376
  {
  }

  lemma FourthFields(size: nat, b: bytes)
    requires |b| == size && size in {584, 648}
    ensures Unpack(BodyClass(size), b).Some?
    ensures var r := Unpack(BodyClass(size), b).value;
            && Has(r, "mr_owner_config", Blob(b[280..328])) && Has(r, "rtmr0", Blob(b[328..376]))
            && Has(r, "rtmr1", Blob(b[376..424]))
  {
    hide Has, Unpack, TD_QUOTE_BODY_V4, TD_QUOTE_BODY_V5, BODY_PLACES, BodyClass;
    FourthTable();
    BodyField(size, b, 9, "mr_owner_config", 280, 48);
    BodyField(size, b, 10, "rtmr0", 328, 48);
    BodyField(size, b, 11, "rtmr1", 376, 48);
  }

  lemma FifthTable()
    ensures |TD_QUOTE_BODY_V5.fields| == 17 && |BODY_PLACES| == 18
    ensures TD_QUOTE_BODY_V5.fields[12] == Field("rtmr2", Block(48)) && BODY_PLACES[12] == 424
    ensures TD_QUOTE_BODY_V5.fields[13] == Field("rtmr3", Block(48)) && BODY_PLACES[13] == 472
    ensures TD_QUOTE_BODY_V5.fields[14] == Field("report_data", Block(64)) && BODY_PLACES[14] == 520
  {
  }

  lemma FifthFields(size: nat, b: bytes)
    requires |b| == size && size in {584, 648}
    ensures Unpack(BodyClass(size), b).Some?
    ensures var r := Unpack(BodyClass(size), b).value;
            && Has(r, "rtmr2", Blob(b[424..472])) && Has(r, "rtmr3", Blob(b[472..520]))
            && Has(r, "report_data", Blob(b[520..584]))
  {
    hide Has, Unpack, TD_QUOTE_BODY_V4, TD_QUOTE_BODY_V5, BODY_PLACES, BodyClass;
    FifthTable();
    BodyField(size, b, 12, "rtmr2", 424, 48);
    BodyField(size, b, 13, "rtmr3", 472, 48);
    BodyField(size, b, 14, "report_data", 520, 64);
  }

  /** Every field of a body, by the bytes it is read from; the last two are in the larger body only. */
  lemma BodySays(size: nat, b: bytes)
    requires |b| == size && size in {584, 648}
    ensures Unpack(BodyClass(size), b).Some?
    ensures var r := Unpack(BodyClass(size), b).value;
            && Has(r, "tee_tcb_svn", Blob(b[0..16])) && Has(r, "mr_seam", Blob(b[16..64]))
            && Has(r, "mr_signer_seam", Blob(b[64..112])) && Has(r, "seam_attributes", Blob(b[112..120]))
            && Has(r, "td_attributes", Blob(b[120..128])) && Has(r, "xfam", Blob(b[128..136]))
            && Has(r, "mr_td", Blob(b[136..184])) && Has(r, "mr_config_id", Blob(b[184..232]))
            && Has(r, "mr_owner", Blob(b[232..280])) && Has(r, "mr_owner_config", Blob(b[280..328]))
            && Has(r, "rtmr0", Blob(b[328..376])) && Has(r, "rtmr1", Blob(b[376..424]))
            && Has(r, "rtmr2", Blob(b[424..472])) && Has(r, "rtmr3", Blob(b[472..520]))
            && Has(r, "report_data", Blob(b[520..584]))
            && (size == 648 ==> Has(r, "tee_tcb_svn2", Blob(b[584..600])) && Has(r, "mr_service_td", Blob(b[600..648])))
  {
    hide Has, Unpack, TD_QUOTE_BODY_V4, TD_QUOTE_BODY_V5, BODY_PLACES, BodyClass;
    FirstFields(size, b);
    SecondFields(size, b);
    ThirdFields(size, b);
    FourthFields(size, b);
    FifthFields(size, b);
    if size == 648 {
      LaterFields();
      LaterPlaces();
      BodyField(size, b, 15, "tee_tcb_svn2", 584, 16);
      BodyField(size, b, 16, "mr_service_td", 600, 48);
    }
  }

  lemma LaterPlaces()
    ensures |BODY_PLACES| == 18 && BODY_PLACES[15] == 584 && BODY_PLACES[16] == 600
  {
  }
}
