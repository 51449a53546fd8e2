/** The TDX quote: its record tables, `TdxQuote.unpack` and `TdxQuote.pack` (types.js). */
module TdxQuote {
  import opened Bytes
  import opened Schema
  import opened Records

  const TDX_QUOTE_HEADER := Schema(
    [
      Field("version", UInt(2)),
      Field("attestation_key_type", UInt(2)),
      Field("tee_type", UInt(4)),
      Field("pce_svn", Block(2)),
      Field("qe_svn", Block(2)),
      Field("qe_vendor_id", Block(16)),
      Field("user_data", Block(20))
    ], Plain)

  const TD_QUOTE_BODY_DESCRIPTOR := Schema(
    [
      Field("type", UInt(2)),
      Field("size", UInt(4))
    ], Plain)

  const TD_QUOTE_BODY_V4 := Schema(
    [
      Field("tee_tcb_svn", Block(16)),
      Field("mr_seam", Block(48)),
      Field("mr_signer_seam", Block(48)),
      Field("seam_attributes", Block(8)),
      Field("td_attributes", Block(8)),
      Field("xfam", Block(8)),
      Field("mr_td", Block(48)),
      Field("mr_config_id", Block(48)),
      Field("mr_owner", Block(48)),
      Field("mr_owner_config", Block(48)),
      Field("rtmr0", Block(48)),
      Field("rtmr1", Block(48)),
      Field("rtmr2", Block(48)),
      Field("rtmr3", Block(48)),
      Field("report_data", Block(64))
    ], Plain)

  const TD_QUOTE_BODY_V5 := Schema(
    TD_QUOTE_BODY_V4.fields + [
      Field("tee_tcb_svn2", Block(16)),
      Field("mr_service_td", Block(48))
    ], Plain)

  const ENCLAVE_REPORT := Schema(
    [
      Field("cpu_svn", Block(16)),
      Field("misc_select", UInt(4)),
      Field("reserved1", Block(28)),
      Field("attributes", Block(16)),
      Field("mr_enclave", Block(32)),
      Field("reserved2", Block(32)),
      Field("mr_signer", Block(32)),
      Field("reserved3", Block(96)),
      Field("isv_prod_id", UInt(2)),
      Field("isv_svn", UInt(2)),
      Field("reserved4", Block(60)),
      Field("report_data", Block(64))
    ], Plain)

  const ECDSA256_SIGNATURE := Schema(
    [
      Field("r", Block(32)),
      Field("s", Block(32))
    ], Plain)

  const ECDSA256_PUBLIC_KEY := Schema(
    [
      Field("x", Block(32)),
      Field("y", Block(32))
    ], Plain)

  const CERTIFICATION_DATA_HEADER := Schema(
    [
      Field("type", UInt(2)),
      Field("size", UInt(4))
    ], Plain)

  const ECDSA_SIGNATURE_DATA := Schema(
    [
      Field("signed_data_size", UInt(4)),
      Field("signature", Sub(ECDSA256_SIGNATURE)),
      Field("attestation_key", Sub(ECDSA256_PUBLIC_KEY))
    ], Plain)

  const QE_REPORT_CERT_DATA := Schema(
    [
      Field("qe_report", Sub(ENCLAVE_REPORT)),
      Field("qe_report_signature", Sub(ECDSA256_SIGNATURE)),
      Field("qe_auth_data_size", UInt(2))
    ], Plain)

  /** The record classes a quote is made of. */
  datatype Classes = Classes(
    header: Schema, descriptor: Schema, bodyV4: Schema, bodyV5: Schema,
    sigData: Schema, certHeader: Schema, qeCertData: Schema, report: Schema)

  const CLASSES := Classes(
    TDX_QUOTE_HEADER, TD_QUOTE_BODY_DESCRIPTOR, TD_QUOTE_BODY_V4, TD_QUOTE_BODY_V5,
    ECDSA_SIGNATURE_DATA, CERTIFICATION_DATA_HEADER, QE_REPORT_CERT_DATA, ENCLAVE_REPORT)

  /** An unpacked quote: the fields `unpack` sets on the object, absent ones left out. */
  datatype Quote = Quote(
    header: Value, descriptor: Option<Value>, body: Value, raw: bytes,
    sigData: Value, certHeader: Value,
    qeCertData: Option<Value>, rawQeReport: bytes, qeAuth: Option<bytes>, pckHeader: Option<Value>,
    chain: bytes)

  // ----- unpack

  /** The records under the signature, and where they end. */
  datatype Signed = Signed(header: Value, descriptor: Option<Value>, body: Value, end: nat)

  function ReadSigned(c: Classes, data: bytes): Option<Signed> {
    var header :- Unpack(c.header, data);
    var at := Size(c.header);
    var version := Num(header, "version");
    if version == 4 then
      var body :- Take(c.bodyV4, data, at);
      Some(Signed(header, None, body, at + Size(c.bodyV4)))
    else if version == 5 then
      var descriptor :- Take(c.descriptor, data, at);
      var start := at + Size(c.descriptor);
      var schema :- BodySchema(c, descriptor);
      var body :- Take(schema, data, start);
      Some(Signed(header, Some(descriptor), body, start + Size(schema)))
    else None
  }

  function UnpackQuote(c: Classes, data: bytes): Option<Quote> {
    var s :- ReadSigned(c, data);
    UnpackSigned(c, data, s)
  }

  /** The body class a version 5 descriptor asks for. */
  function BodySchema(c: Classes, descriptor: Value): Option<Schema> {
    if Num(descriptor, "type") == 2 && Num(descriptor, "size") == Size(c.bodyV4) then Some(c.bodyV4)
    else if Num(descriptor, "type") == 3 && Num(descriptor, "size") == Size(c.bodyV5) then Some(c.bodyV5)
    else None
  }

  /** From the end of the signed bytes on. */
  function UnpackSigned(c: Classes, data: bytes, s: Signed): Option<Quote> {
    var sigData :- Take(c.sigData, data, s.end);
    var at := s.end + Size(c.sigData);
    var certHeader :- Take(c.certHeader, data, at);
    UnpackCert(c, data, BareQuote(data, s, sigData, certHeader), at + Size(c.certHeader))
  }

  function BareQuote(data: bytes, s: Signed, sigData: Value, certHeader: Value): Quote {
    Quote(s.header, s.descriptor, s.body, Slice(data, 0, s.end), sigData, certHeader, None, [], None, None, [])
  }

  function UnpackCert(c: Classes, data: bytes, q: Quote, at: nat): Option<Quote> {
    var certType := Num(q.certHeader, "type");
    if certType == 6 then
      var qe :- Take(c.qeCertData, data, at);
      var authAt := at + Size(c.qeCertData);
      var pckAt := authAt + Num(qe, "qe_auth_data_size");
      var pck :- Take(c.certHeader, data, pckAt);
      var chainAt := pckAt + Size(c.certHeader);
      Some(q.(qeCertData := Some(qe), rawQeReport := Slice(data, at, at + Size(c.report)),
              qeAuth := Some(Slice(data, authAt, pckAt)), pckHeader := Some(pck),
              chain := Slice(data, chainAt, chainAt + Num(pck, "size"))))
    else if certType == 5 then
      Some(q.(chain := Slice(data, at, at + Num(q.certHeader, "size"))))
    else None
  }

  // ----- pack

  function PackSigned(s: Signed): Option<bytes> {
    var header :- PackPart(Some(s.header));
    var descriptor :- PackPart(if Num(s.header, "version") == 5 then s.descriptor else None);
    var body :- PackPart(Some(s.body));
    Some(header + descriptor + body)
  }

  function PackCert(q: Quote): Option<bytes> {
    var certType := Num(q.certHeader, "type");
    if certType == 6 then
      var qe :- PackPart(q.qeCertData);
      var pck :- PackPart(q.pckHeader);
      Some(qe + (if q.qeAuth.Some? then q.qeAuth.value else []) + pck + q.chain)
    else if certType == 5 then Some(q.chain)
    else Some([])
  }

  function PackQuote(q: Quote): Option<bytes> {
    var signed :- PackSigned(Signed(q.header, q.descriptor, q.body, |q.raw|));
    var sigData :- PackPart(Some(q.sigData));
    var certHeader :- PackPart(Some(q.certHeader));
    var cert :- PackCert(q);
    Some(signed + sigData + certHeader + cert)
  }

  // ----- the tables

  const TDX_QUOTE_HEADER_WIDTHS: seq<nat> := [2, 2, 4, 2, 2, 16, 20]

  lemma TdxQuoteHeaderNames()
    ensures UniqueNames(TDX_QUOTE_HEADER.fields)
  {
  }

  lemma TdxQuoteHeaderWidths()
    ensures FlatTable(TDX_QUOTE_HEADER.fields, TDX_QUOTE_HEADER_WIDTHS)
  {
  }

  lemma TdxQuoteHeaderSum()
    ensures |TDX_QUOTE_HEADER_WIDTHS| == 7 && Sum(TDX_QUOTE_HEADER_WIDTHS, 7) == 48
  {
    assert Sum(TDX_QUOTE_HEADER_WIDTHS, 1) == 2;
    assert Sum(TDX_QUOTE_HEADER_WIDTHS, 3) == 8;
    assert Sum(TDX_QUOTE_HEADER_WIDTHS, 5) == 12;
  }

  lemma TdxQuoteHeaderTable()
    ensures Solid(TDX_QUOTE_HEADER) && KindSize(Sub(TDX_QUOTE_HEADER)) == Size(TDX_QUOTE_HEADER) == 48
  {
    hide FlatTable, UniqueNames, Sum, Offset, Solid;
    TdxQuoteHeaderNames();
    TdxQuoteHeaderWidths();
    TdxQuoteHeaderSum();
    FlatTableSolid(TDX_QUOTE_HEADER, TDX_QUOTE_HEADER_WIDTHS);
  }

  const TD_QUOTE_BODY_DESCRIPTOR_WIDTHS: seq<nat> := [2, 4]

  lemma TdQuoteBodyDescriptorTable()
    ensures Solid(TD_QUOTE_BODY_DESCRIPTOR) && KindSize(Sub(TD_QUOTE_BODY_DESCRIPTOR)) == Size(TD_QUOTE_BODY_DESCRIPTOR) == 6
  {
    assert Sum(TD_QUOTE_BODY_DESCRIPTOR_WIDTHS, 1) == 2;
    FlatTableSolid(TD_QUOTE_BODY_DESCRIPTOR, TD_QUOTE_BODY_DESCRIPTOR_WIDTHS);
  }

  const TD_QUOTE_BODY_V4_WIDTHS: seq<nat> := [16, 48, 48, 8, 8, 8, 48, 48, 48, 48, 48, 48, 48, 48, 64]

  lemma TdQuoteBodyV4Names1()
    ensures var fs := TD_QUOTE_BODY_V4.fields;
            |fs| == 15 && forall i, j | 0 <= i < j < 8 :: fs[i].name != fs[j].name
  {
  }

  lemma TdQuoteBodyV4Names2()
    ensures var fs := TD_QUOTE_BODY_V4.fields;
            |fs| == 15 && forall i, j | 0 <= i < 8 <= j < 15 :: fs[i].name != fs[j].name
  {
  }

  lemma TdQuoteBodyV4Names3()
    ensures var fs := TD_QUOTE_BODY_V4.fields;
            |fs| == 15 && forall i, j | 8 <= i < j < 15 :: fs[i].name != fs[j].name
  {
  }

  lemma TdQuoteBodyV4Names()
    ensures UniqueNames(TD_QUOTE_BODY_V4.fields)
  {
    TdQuoteBodyV4Names1();
    TdQuoteBodyV4Names2();
    TdQuoteBodyV4Names3();
  }

  lemma TdQuoteBodyV4Widths()
    ensures FlatTable(TD_QUOTE_BODY_V4.fields, TD_QUOTE_BODY_V4_WIDTHS)
  {
  }

  lemma TdQuoteBodyV4Sum()
    ensures |TD_QUOTE_BODY_V4_WIDTHS| == 15 && Sum(TD_QUOTE_BODY_V4_WIDTHS, 15) == 584
  {
    assert Sum(TD_QUOTE_BODY_V4_WIDTHS, 4) == 120;
    assert Sum(TD_QUOTE_BODY_V4_WIDTHS, 8) == 232;
    assert Sum(TD_QUOTE_BODY_V4_WIDTHS, 12) == 424;
  }

  lemma TdQuoteBodyV4Table()
    ensures Solid(TD_QUOTE_BODY_V4) && KindSize(Sub(TD_QUOTE_BODY_V4)) == Size(TD_QUOTE_BODY_V4) == 584
  {
    hide FlatTable, UniqueNames, Sum, Offset, Solid;
    TdQuoteBodyV4Names();
    TdQuoteBodyV4Widths();
    TdQuoteBodyV4Sum();
    FlatTableSolid(TD_QUOTE_BODY_V4, TD_QUOTE_BODY_V4_WIDTHS);
  }

  const TD_QUOTE_BODY_V5_WIDTHS: seq<nat> := TD_QUOTE_BODY_V4_WIDTHS + [16, 48]

  lemma TdQuoteBodyV5Names()
    ensures UniqueNames(TD_QUOTE_BODY_V5.fields)
  {
    TdQuoteBodyV4Names();
    forall i | 0 <= i < 15
      ensures TD_QUOTE_BODY_V4.fields[i].name != "tee_tcb_svn2" && TD_QUOTE_BODY_V4.fields[i].name != "mr_service_td"
    {
    }
  }

  lemma TdQuoteBodyV5Widths()
    ensures FlatTable(TD_QUOTE_BODY_V5.fields, TD_QUOTE_BODY_V5_WIDTHS)
  {
    hide KindSize;
    TdQuoteBodyV4Widths();
    assert KindSize(Block(16)) == 16 && KindSize(Block(48)) == 48 by { BlockSizes(); }
  }

  lemma BlockSizes()
    ensures KindSize(Block(16)) == 16 && KindSize(Block(48)) == 48
  {
  }

  lemma TdQuoteBodyV5Sum()
    ensures |TD_QUOTE_BODY_V5_WIDTHS| == 17 && Sum(TD_QUOTE_BODY_V5_WIDTHS, 17) == 648
  {
    TdQuoteBodyV4Sum();
    SumPrefix(TD_QUOTE_BODY_V4_WIDTHS, [16, 48], 15);
    assert Sum(TD_QUOTE_BODY_V5_WIDTHS, 16) == 600;
  }

  lemma TdQuoteBodyV5Table()
    ensures Solid(TD_QUOTE_BODY_V5) && KindSize(Sub(TD_QUOTE_BODY_V5)) == Size(TD_QUOTE_BODY_V5) == 648
  {
    hide FlatTable, UniqueNames, Sum, Offset, Solid;
    TdQuoteBodyV5Names();
    TdQuoteBodyV5Widths();
    TdQuoteBodyV5Sum();
    FlatTableSolid(TD_QUOTE_BODY_V5, TD_QUOTE_BODY_V5_WIDTHS);
  }

  const ENCLAVE_REPORT_WIDTHS: seq<nat> := [16, 4, 28, 16, 32, 32, 32, 96, 2, 2, 60, 64]

  lemma EnclaveReportNames1()
    ensures var fs := ENCLAVE_REPORT.fields;
            |fs| == 12 && forall i, j | 0 <= i < j < 6 :: fs[i].name != fs[j].name
  {
  }

  lemma EnclaveReportNames2()
    ensures var fs := ENCLAVE_REPORT.fields;
            |fs| == 12 && forall i, j | 0 <= i < 6 <= j < 12 :: fs[i].name != fs[j].name
  {
  }

  lemma EnclaveReportNames3()
    ensures var fs := ENCLAVE_REPORT.fields;
            |fs| == 12 && forall i, j | 6 <= i < j < 12 :: fs[i].name != fs[j].name
  {
  }

  lemma EnclaveReportNames()
    ensures UniqueNames(ENCLAVE_REPORT.fields)
  {
    EnclaveReportNames1();
    EnclaveReportNames2();
    EnclaveReportNames3();
  }

  lemma EnclaveReportWidths()
    ensures FlatTable(ENCLAVE_REPORT.fields, ENCLAVE_REPORT_WIDTHS)
  {
  }

  lemma EnclaveReportSum()
    ensures |ENCLAVE_REPORT_WIDTHS| == 12 && Sum(ENCLAVE_REPORT_WIDTHS, 12) == 384
  {
    assert Sum(ENCLAVE_REPORT_WIDTHS, 4) == 64;
    assert Sum(ENCLAVE_REPORT_WIDTHS, 8) == 256;
  }

  lemma EnclaveReportTable()
    ensures Solid(ENCLAVE_REPORT) && KindSize(Sub(ENCLAVE_REPORT)) == Size(ENCLAVE_REPORT) == 384
  {
    hide FlatTable, UniqueNames, Sum, Offset, Solid;
    EnclaveReportNames();
    EnclaveReportWidths();
    EnclaveReportSum();
    FlatTableSolid(ENCLAVE_REPORT, ENCLAVE_REPORT_WIDTHS);
  }

  const ECDSA256_SIGNATURE_WIDTHS: seq<nat> := [32, 32]

  lemma Ecdsa256SignatureTable()
    ensures Solid(ECDSA256_SIGNATURE) && KindSize(Sub(ECDSA256_SIGNATURE)) == Size(ECDSA256_SIGNATURE) == 64
  {
    assert Sum(ECDSA256_SIGNATURE_WIDTHS, 1) == 32;
    FlatTableSolid(ECDSA256_SIGNATURE, ECDSA256_SIGNATURE_WIDTHS);
  }

  const ECDSA256_PUBLIC_KEY_WIDTHS: seq<nat> := [32, 32]

  lemma Ecdsa256PublicKeyTable()
    ensures Solid(ECDSA256_PUBLIC_KEY) && KindSize(Sub(ECDSA256_PUBLIC_KEY)) == Size(ECDSA256_PUBLIC_KEY) == 64
  {
    assert Sum(ECDSA256_PUBLIC_KEY_WIDTHS, 1) == 32;
    FlatTableSolid(ECDSA256_PUBLIC_KEY, ECDSA256_PUBLIC_KEY_WIDTHS);
  }

  const CERTIFICATION_DATA_HEADER_WIDTHS: seq<nat> := [2, 4]

  lemma CertificationDataHeaderTable()
    ensures Solid(CERTIFICATION_DATA_HEADER) && KindSize(Sub(CERTIFICATION_DATA_HEADER)) == Size(CERTIFICATION_DATA_HEADER) == 6
  {
    assert Sum(CERTIFICATION_DATA_HEADER_WIDTHS, 1) == 2;
    FlatTableSolid(CERTIFICATION_DATA_HEADER, CERTIFICATION_DATA_HEADER_WIDTHS);
  }

  const ECDSA_SIGNATURE_DATA_WIDTHS: seq<nat> := [4, 64, 64]

  lemma EcdsaSignatureDataTable()
    ensures Solid(ECDSA_SIGNATURE_DATA) && KindSize(Sub(ECDSA_SIGNATURE_DATA)) == Size(ECDSA_SIGNATURE_DATA) == 132
  {
    Ecdsa256SignatureTable();
    Ecdsa256PublicKeyTable();
    assert Sum(ECDSA_SIGNATURE_DATA_WIDTHS, 1) == 4;
    assert Sum(ECDSA_SIGNATURE_DATA_WIDTHS, 2) == 68;
    FlatTableSolid(ECDSA_SIGNATURE_DATA, ECDSA_SIGNATURE_DATA_WIDTHS);
  }

  const QE_REPORT_CERT_DATA_WIDTHS: seq<nat> := [384, 64, 2]

  lemma QeReportCertDataTable()
    ensures Solid(QE_REPORT_CERT_DATA) && KindSize(Sub(QE_REPORT_CERT_DATA)) == Size(QE_REPORT_CERT_DATA) == 450
  {
    EnclaveReportTable();
    Ecdsa256SignatureTable();
    assert Sum(QE_REPORT_CERT_DATA_WIDTHS, 1) == 384;
    assert Sum(QE_REPORT_CERT_DATA_WIDTHS, 2) == 448;
    FlatTableSolid(QE_REPORT_CERT_DATA, QE_REPORT_CERT_DATA_WIDTHS);
  }

  // ----- packing what was unpacked

  predicate SolidClasses(c: Classes) {
    && Sized(c.header) && Sized(c.descriptor) && Sized(c.bodyV4) && Sized(c.bodyV5)
    && Sized(c.sigData) && Sized(c.certHeader) && Sized(c.qeCertData) && Sized(c.report)
  }

  lemma QuoteClassesAreSolid()
    ensures SolidClasses(CLASSES)
  {
    TdxQuoteHeaderTable();
    TdQuoteBodyDescriptorTable();
    TdQuoteBodyV4Table();
    TdQuoteBodyV5Table();
    EcdsaSignatureDataTable();
    CertificationDataHeaderTable();
    QeReportCertDataTable();
    EnclaveReportTable();
  }

  lemma CertJoin(data: bytes, q: Quote, at: nat, authAt: nat, pckAt: nat, chainAt: nat)
    requires at <= authAt <= pckAt <= chainAt <= chainAt + |q.chain| <= |data| && Num(q.certHeader, "type") == 6
    requires PackPart(q.qeCertData) == Some(data[at..authAt]) && q.qeAuth == Some(data[authAt..pckAt])
    requires PackPart(q.pckHeader) == Some(data[pckAt..chainAt]) && q.chain == data[chainAt..chainAt + |q.chain|]
    ensures PackCert(q) == Some(data[at..chainAt + |q.chain|])
  {
    Split4(data, at, authAt, pckAt, chainAt, chainAt + |q.chain|);
  }

  /** Where the certification data ends. */
  function CertEnd(c: Classes, q: Quote, at: nat): nat {
    match q.qeCertData
    case None => at + |q.chain|
    case Some(qe) =>
      at + Size(c.qeCertData) + Num(qe, "qe_auth_data_size") + Size(c.certHeader) + |q.chain|
  }

  /** The certification data packs to the bytes it was read from, up to the end of the data when that is short. */
  lemma CertPacks(c: Classes, data: bytes, q: Quote, at: nat)
    requires SolidClasses(c) && UnpackCert(c, data, q, at).Some? && q.qeCertData.None? && at <= |data|
    ensures var r := UnpackCert(c, data, q, at).value;
            at <= CertEnd(c, r, at) <= |data| && PackCert(r) == Some(data[at..CertEnd(c, r, at)])
  {
    hide Slice, Take, PackPart, Num, Solid, Size;
    var r := UnpackCert(c, data, q, at).value;
    if Num(q.certHeader, "type") == 6 {
      var qe := Take(c.qeCertData, data, at);
      TakePacks(c.qeCertData, data, at);
      var authAt := at + Size(c.qeCertData);
      var pckAt := authAt + Num(qe.value, "qe_auth_data_size");
      var pck := Take(c.certHeader, data, pckAt);
      TakePacks(c.certHeader, data, pckAt);
      var chainAt := pckAt + Size(c.certHeader);
      SliceIsPiece(data, chainAt, chainAt + Num(pck.value, "size"));
      CertJoin(data, r, at, authAt, pckAt, chainAt);
    } else {
      SliceIsPiece(data, at, at + Num(q.certHeader, "size"));
    }
  }

  lemma SignedJoin(data: bytes, s: Signed, at: nat, start: nat)
    requires at <= start <= s.end <= |data|
    requires PackPart(Some(s.header)) == Some(data[..at]) && PackPart(Some(s.body)) == Some(data[start..s.end])
    requires PackPart(if Num(s.header, "version") == 5 then s.descriptor else None) == Some(data[at..start])
    ensures PackSigned(s) == Some(data[..s.end])
  {
    Split3(data, 0, at, start, s.end);
  }

  lemma AbsentPacks(data: bytes, at: nat)
    requires at <= |data|
    ensures PackPart(None) == Some(data[at..at])
  {
    assert data[at..at] == [];
  }

  /** The signed records pack to the data in front of their end. */
  lemma SignedPacks(c: Classes, data: bytes)
    requires SolidClasses(c) && ReadSigned(c, data).Some?
    ensures var s := ReadSigned(c, data).value;
            s.end <= |data| && PackSigned(s) == Some(data[..s.end])
  {
    hide Slice, Take, PackPart;
    var s := ReadSigned(c, data).value;
    UnpackPacks(c.header, data);
    var at := Size(c.header);
    if Num(s.header, "version") == 4 {
      TakePacks(c.bodyV4, data, at);
      AbsentPacks(data, at);
      SignedJoin(data, s, at, at);
    } else {
      TakePacks(c.descriptor, data, at);
      var start := at + Size(c.descriptor);
      TakePacks(BodySchema(c, Take(c.descriptor, data, at).value).value, data, start);
      SignedJoin(data, s, at, start);
    }
  }

  /** Whenever a quote is accepted, packing it again gives a prefix of the data (all of it up to the end of the
      certification data), and the bytes kept for the signature check are its packed header, descriptor and body. */
  lemma QuotePacks(c: Classes, data: bytes)
    requires SolidClasses(c) && UnpackQuote(c, data).Some?
    ensures var q := UnpackQuote(c, data).value;
            && PackQuote(q).Some? && PackQuote(q).value <= data
            && PackSigned(Signed(q.header, q.descriptor, q.body, |q.raw|)) == Some(q.raw) && q.raw <= data
  {
    hide Slice, Take, PackSigned, PackPart, PackCert, ReadSigned, UnpackQuote, UnpackCert, Solid, Size, CertEnd;
    SignedRaw(c, data);
    var s := ReadSigned(c, data).value;
    var q := UnpackQuote(c, data).value;
    QuoteTail(c, data);
    SignedPacks(c, data);
    SliceIsPiece(data, 0, s.end);
    var at := s.end + Size(c.sigData);
    var certAt := at + Size(c.certHeader);
    TakePacks(c.sigData, data, s.end);
    TakePacks(c.certHeader, data, at);
    CertPacks(c, data, BareQuote(data, s, q.sigData, q.certHeader), certAt);
    EndIgnored(s, |q.raw|);
    Split4(data, 0, s.end, at, certAt, CertEnd(c, q, certAt));
  }

  lemma EndIgnored(s: Signed, end: nat)
    ensures PackSigned(s.(end := end)) == PackSigned(s)
  {
    hide PackPart;
  }

  lemma SignedRaw(c: Classes, data: bytes)
    requires UnpackQuote(c, data).Some?
    ensures ReadSigned(c, data).Some?
    ensures var s, q := ReadSigned(c, data).value, UnpackQuote(c, data).value;
            q.header == s.header && q.descriptor == s.descriptor && q.body == s.body && q.raw == Slice(data, 0, s.end)
  {
    hide Slice, Take, ReadSigned, Num, Size;
  }

  /** The records behind the signed ones. */
  lemma QuoteTail(c: Classes, data: bytes)
    requires UnpackQuote(c, data).Some?
    ensures ReadSigned(c, data).Some?
    ensures var s, q := ReadSigned(c, data).value, UnpackQuote(c, data).value;
            var at := s.end + Size(c.sigData);
            && Take(c.sigData, data, s.end) == Some(q.sigData) && Take(c.certHeader, data, at) == Some(q.certHeader)
            && UnpackCert(c, data, BareQuote(data, s, q.sigData, q.certHeader), at + Size(c.certHeader)) == Some(q)
  {
    hide Slice, Take, ReadSigned, Num, Size;
  }

  lemma SameTake(schema: Schema, b: bytes, d: bytes, at: nat, n: nat)
    requires at + Size(schema) <= n <= |b| && n <= |d| && b[..n] == d[..n]
    ensures Take(schema, b, at) == Take(schema, d, at)
  {
    assert b[at..at + Size(schema)] == b[..n][at..at + Size(schema)];
    assert d[at..at + Size(schema)] == d[..n][at..at + Size(schema)];
  }

  lemma SameHeader(c: Classes, b: bytes, d: bytes, n: nat)
    requires Sized(c.header) && Size(c.header) <= n <= |b| && n <= |d| && b[..n] == d[..n]
    ensures Unpack(c.header, b) == Unpack(c.header, d)
  {
    assert b[..Size(c.header)] == b[..n][..Size(c.header)] && d[..Size(c.header)] == d[..n][..Size(c.header)];
    forall i | 0 <= i < |c.header.fields| ensures !c.header.fields[i].kind.Custom? {
      assert SolidKind(c.header.fields[i].kind);
    }
    UnpackLocal(c.header, b, d);
  }

  /** Data that agrees up to the end of the signed records holds the same signed records. */
  lemma SameSigned(c: Classes, b: bytes, d: bytes)
    requires SolidClasses(c) && ReadSigned(c, b).Some?
    requires var n := ReadSigned(c, b).value.end; n <= |b| && n <= |d| && b[..n] == d[..n]
    ensures ReadSigned(c, d) == ReadSigned(c, b)
  {
    hide Slice, Take, PackPart;
    var s := ReadSigned(c, b).value;
    var at := Size(c.header);
    SameHeader(c, b, d, s.end);
    if Num(s.header, "version") == 4 {
      SameTake(c.bodyV4, b, d, at, s.end);
    } else {
      SameTake(c.descriptor, b, d, at, s.end);
      SameTake(BodySchema(c, Take(c.descriptor, b, at).value).value, b, d, at + Size(c.descriptor), s.end);
    }
  }

  /** The bytes under the signature determine the header, the descriptor and the body, hence every measurement in it. */
  lemma SignedDetermines(c: Classes, b: bytes, d: bytes)
    requires SolidClasses(c) && UnpackQuote(c, b).Some? && UnpackQuote(c, d).Some?
    requires UnpackQuote(c, b).value.raw == UnpackQuote(c, d).value.raw
    ensures var q, r := UnpackQuote(c, b).value, UnpackQuote(c, d).value;
            q.header == r.header && q.descriptor == r.descriptor && q.body == r.body
  {
    hide Slice, Take, ReadSigned, UnpackQuote, PackSigned, Solid, Size;
    SignedRaw(c, b);
    SignedRaw(c, d);
    var s, t := ReadSigned(c, b).value, ReadSigned(c, d).value;
    SignedPacks(c, b);
    SignedPacks(c, d);
    SliceIsPiece(b, 0, s.end);
    SliceIsPiece(d, 0, t.end);
    SameSigned(c, b, d);
  }

  /** The browser's check that a loaded quote re-encodes to itself never fails. */
  lemma QuoteRoundTrip(data: bytes)
    requires UnpackQuote(CLASSES, data).Some?
    ensures var q := UnpackQuote(CLASSES, data).value;
            && PackQuote(q).Some? && PackQuote(q).value == Slice(data, 0, |PackQuote(q).value|)
            && PackSigned(Signed(q.header, q.descriptor, q.body, |q.raw|)) == Some(q.raw)
  {
    QuoteClassesAreSolid();
    QuotePacks(CLASSES, data);
  }

  /** Field `i` of the record is the block of `data` at its place in the record that starts at `at`. */
  ghost predicate HoldsBlock(record: Value, i: nat, data: bytes, at: nat)
    requires record.Rec? && i < |record.schema.fields|
  {
    var Field(name, kind) := record.schema.fields[i];
    var start := at + Offset(record.schema.fields, i);
    && kind.Block? && name in record.data && start + kind.size <= |data|
    && record.data[name] == Blob(data[start..start + kind.size])
  }

  /** Every block of the body is reported as exactly the signed bytes at its place. */
  lemma BodyBlockIsSigned(c: Classes, data: bytes, i: nat)
    requires SolidClasses(c) && UnpackQuote(c, data).Some?
    ensures var q := UnpackQuote(c, data).value;
            && q.body.Rec? && (q.body.schema == c.bodyV4 || q.body.schema == c.bodyV5) && Size(q.body.schema) <= |q.raw|
            && (i < |q.body.schema.fields| && q.body.schema.fields[i].kind.Block? ==>
                  HoldsBlock(q.body, i, q.raw, |q.raw| - Size(q.body.schema)))
  {
    hide Slice, Take, HoldsBlock, Offset, Solid, UnpackSigned;
    var s := ReadSigned(c, data).value;
    SignedPacks(c, data);
    SliceIsPiece(data, 0, s.end);
    SignedRaw(c, data);
    var at := Size(c.header);
    if Num(s.header, "version") == 4 {
      TakeBlock(c.bodyV4, data, at, i);
    } else {
      TakeBlock(BodySchema(c, Take(c.descriptor, data, at).value).value, data, at + Size(c.descriptor), i);
    }
  }

  lemma TakeBlock(schema: Schema, data: bytes, at: nat, i: nat)
    requires Sized(schema) && Take(schema, data, at).Some?
    ensures at + Size(schema) <= |data| && Take(schema, data, at).value.Rec? && Take(schema, data, at).value.schema == schema
    ensures i < |schema.fields| && schema.fields[i].kind.Block? ==>
              HoldsBlock(Take(schema, data, at).value, i, data[..at + Size(schema)], at)
  {
    TakePacks(schema, data, at);
    if i < |schema.fields| && schema.fields[i].kind.Block? {
      PieceBlock(schema, data, at, i);
    }
  }

  lemma TakeIs(schema: Schema, data: bytes, at: nat)
    requires at + Size(schema) <= |data|
    ensures Take(schema, data, at) == Unpack(schema, data[at..at + Size(schema)])
  {
    hide Unpack, Size;
  }

  lemma PieceBlock(schema: Schema, data: bytes, at: nat, i: nat)
    requires Sized(schema) && at + Size(schema) <= |data| && i < |schema.fields| && schema.fields[i].kind.Block?
    requires Take(schema, data, at).Some? && Take(schema, data, at).value.Rec? && Take(schema, data, at).value.schema == schema
    ensures HoldsBlock(Take(schema, data, at).value, i, data[..at + Size(schema)], at)
  {
    hide Take, Unpack, Covered, Offset;
    var end := at + Size(schema);
    TakeIs(schema, data, at);
    BlockValue(schema, i, data[at..end]);
    OffsetStep(schema.fields, i + 1);
    OffsetMonotone(schema.fields, i + 1, |schema.fields|);
    var from := Offset(schema.fields, i);
    var to := from + schema.fields[i].kind.size;
    PieceOfPiece(data, at, end, from, to);
    PieceOfTake(data, end, at + from, at + to);
  }

  /** The MRTD the browser compares is the 48 signed bytes 136 bytes into the body. */
  lemma MrTdIsSigned(data: bytes)
    requires UnpackQuote(CLASSES, data).Some?
    ensures var q := UnpackQuote(CLASSES, data).value;
            && q.body.Rec? && Size(q.body.schema) <= |q.raw|
            && var at := |q.raw| - Size(q.body.schema) + 136;
               at + 48 <= |q.raw| && "mr_td" in q.body.data && q.body.data["mr_td"] == Blob(q.raw[at..at + 48])
  {
    hide UnpackQuote, Solid, Size;
    QuoteClassesAreSolid();
    MrTdField();
    BodyBlockIsSigned(CLASSES, data, 6);
  }

  lemma SeamPlace()
    ensures |TD_QUOTE_BODY_V4.fields| == 15 && Offset(TD_QUOTE_BODY_V4.fields, 3) == 112
  {
    hide Offset;
    var fs := TD_QUOTE_BODY_V4.fields;
    NoOffset(fs);
    OffsetStep(fs, 1);
    OffsetStep(fs, 2);
    OffsetStep(fs, 3);
  }

  lemma MrTdPlace()
    ensures |TD_QUOTE_BODY_V4.fields| == 15 && TD_QUOTE_BODY_V4.fields[6] == Field("mr_td", Block(48))
    ensures Offset(TD_QUOTE_BODY_V4.fields, 6) == 136
  {
    hide Offset;
    var fs := TD_QUOTE_BODY_V4.fields;
    SeamPlace();
    OffsetStep(fs, 4);
    OffsetStep(fs, 5);
    OffsetStep(fs, 6);
  }

  lemma BodyV5Extends()
    ensures TD_QUOTE_BODY_V5.fields ==
      TD_QUOTE_BODY_V4.fields + [Field("tee_tcb_svn2", Block(16)), Field("mr_service_td", Block(48))]
  {
  }

  lemma MrTdField()
    ensures |TD_QUOTE_BODY_V4.fields| > 6 && TD_QUOTE_BODY_V4.fields[6] == Field("mr_td", Block(48))
    ensures |TD_QUOTE_BODY_V5.fields| > 6 && TD_QUOTE_BODY_V5.fields[6] == Field("mr_td", Block(48))
    ensures Offset(TD_QUOTE_BODY_V4.fields, 6) == 136 && Offset(TD_QUOTE_BODY_V5.fields, 6) == 136
  {
    hide *;
    MrTdPlace();
    BodyV5Extends();
    OffsetPrefix(TD_QUOTE_BODY_V4.fields, [Field("tee_tcb_svn2", Block(16)), Field("mr_service_td", Block(48))], 6);
  }

  // ----- unpacking what was packed

  /** A quote as a producer would fill it in: every length it declares is the length it has. */
  ghost predicate WellFormed(c: Classes, q: Quote) {
    WellFormedSigned(c, q) && Made(q.sigData, c.sigData) && Made(q.certHeader, c.certHeader) && WellFormedCert(c, q)
  }

  ghost predicate WellFormedSigned(c: Classes, q: Quote) {
    && Made(q.header, c.header)
    && (match q.descriptor
        case None => Num(q.header, "version") == 4 && Made(q.body, c.bodyV4)
        case Some(d) =>
          && Num(q.header, "version") == 5 && Made(d, c.descriptor)
          && BodySchema(c, d).Some? && Made(q.body, BodySchema(c, d).value))
    && PackSigned(Signed(q.header, q.descriptor, q.body, |q.raw|)) == Some(q.raw)
  }

  ghost predicate WellFormedCert(c: Classes, q: Quote) {
    if Num(q.certHeader, "type") == 6 then
      && q.qeCertData.Some? && Made(q.qeCertData.value, c.qeCertData)
      && q.rawQeReport == Slice(Encode(q.qeCertData.value), 0, Size(c.report))
      && q.qeAuth.Some? && |q.qeAuth.value| == Num(q.qeCertData.value, "qe_auth_data_size")
      && q.pckHeader.Some? && Made(q.pckHeader.value, c.certHeader)
      && |q.chain| == Num(q.pckHeader.value, "size")
    else
      && Num(q.certHeader, "type") == 5
      && q.qeCertData.None? && q.rawQeReport == [] && q.qeAuth.None? && q.pckHeader.None?
      && |q.chain| == Num(q.certHeader, "size")
  }

  lemma ReadSignedMade(c: Classes, q: Quote, data: bytes)
    requires SolidClasses(c) && WellFormedSigned(c, q) && q.raw <= data
    ensures ReadSigned(c, data) == Some(Signed(q.header, q.descriptor, q.body, |q.raw|))
  {
    hide Slice, Take, Solid, Typed, Encode, Unpack, Size;
    MadePacks(q.header, c.header);
    var at := Size(c.header);
    match q.descriptor {
      case None =>
        MadePacks(q.body, c.bodyV4);
        assert q.raw == Encode(q.header) + Encode(q.body);
        UnpackMade(q.header, c.header, data);
        TakeMade(q.body, c.bodyV4, data, at);
      case Some(d) =>
        var schema := BodySchema(c, d).value;
        MadePacks(d, c.descriptor);
        MadePacks(q.body, schema);
        assert q.raw == Encode(q.header) + Encode(d) + Encode(q.body);
        UnpackMade(q.header, c.header, data);
        TakeMade(d, c.descriptor, data, at);
        TakeMade(q.body, schema, data, at + Size(c.descriptor));
    }
  }

  lemma CertMade(c: Classes, q: Quote, data: bytes, at: nat)
    requires SolidClasses(c) && WellFormedCert(c, q) && Size(c.report) <= Size(c.qeCertData)
    requires PackCert(q).Some? && at + |PackCert(q).value| <= |data|
    requires data[at..at + |PackCert(q).value|] == PackCert(q).value
    ensures UnpackCert(c, data, q.(qeCertData := None, rawQeReport := [], qeAuth := None, pckHeader := None, chain := []), at)
         == Some(q)
  {
    hide Take, Solid, Typed, Encode, Unpack, Size, PackPart;
    if Num(q.certHeader, "type") == 6 {
      var qe, auth, pck := q.qeCertData.value, q.qeAuth.value, q.pckHeader.value;
      MadePacks(qe, c.qeCertData);
      MadePacks(pck, c.certHeader);
      var authAt := at + Size(c.qeCertData);
      var pckAt := authAt + |auth|;
      var chainAt := pckAt + Size(c.certHeader);
      FourPieces(data, at, Encode(qe), auth, Encode(pck), q.chain);
      TakeMade(qe, c.qeCertData, data, at);
      TakeMade(pck, c.certHeader, data, pckAt);
      ReportPiece(c, qe, data, at);
    }
  }

  lemma ReportPiece(c: Classes, qe: Value, data: bytes, at: nat)
    requires qe.Rec? && |Encode(qe)| == Size(c.qeCertData) && at + Size(c.qeCertData) <= |data|
    requires data[at..at + Size(c.qeCertData)] == Encode(qe) && Size(c.report) <= Size(c.qeCertData)
    ensures Slice(data, at, at + Size(c.report)) == Slice(Encode(qe), 0, Size(c.report))
  {
    assert data[at..at + Size(c.report)] == data[at..at + Size(c.qeCertData)][..Size(c.report)];
  }

  /** A well-formed quote packs, and unpacking the bytes gives the quote back whatever follows them. */
  lemma UnpackPackedQuote(c: Classes, q: Quote, tail: bytes)
    requires SolidClasses(c) && Size(c.report) <= Size(c.qeCertData) && WellFormed(c, q)
    ensures PackQuote(q).Some? && UnpackQuote(c, PackQuote(q).value + tail) == Some(q)
  {
    hide Take, Solid, Typed, Encode, Unpack, Size, PackPart, PackSigned, WellFormedSigned, ReadSigned, PackCert, UnpackCert,
         WellFormedCert, Slice;
    assert WellFormedSigned(c, q);
    RawIsSigned(c, q);
    MadePacks(q.sigData, c.sigData);
    MadePacks(q.certHeader, c.certHeader);
    CertLength(c, q);
    var cert := PackCert(q).value;
    var data := PackQuote(q).value + tail;
    assert data == q.raw + Encode(q.sigData) + Encode(q.certHeader) + cert + tail;
    FourPieces(data, 0, q.raw, Encode(q.sigData), Encode(q.certHeader), cert);
    assert Slice(data, 0, |q.raw|) == q.raw;
    ReadSignedMade(c, q, data);
    var at := |q.raw| + Size(c.sigData);
    TakeMade(q.sigData, c.sigData, data, |q.raw|);
    TakeMade(q.certHeader, c.certHeader, data, at);
    CertMade(c, q, data, at + Size(c.certHeader));
  }

  lemma RawIsSigned(c: Classes, q: Quote)
    requires WellFormedSigned(c, q)
    ensures PackSigned(Signed(q.header, q.descriptor, q.body, |q.raw|)) == Some(q.raw)
  {
  }

  lemma CertLength(c: Classes, q: Quote)
    requires SolidClasses(c) && WellFormedCert(c, q)
    ensures PackCert(q).Some?
  {
    if Num(q.certHeader, "type") == 6 {
      MadePacks(q.qeCertData.value, c.qeCertData);
      MadePacks(q.pckHeader.value, c.certHeader);
    }
  }

  lemma QuoteUnpackPack(q: Quote, tail: bytes)
    requires WellFormed(CLASSES, q)
    ensures PackQuote(q).Some? && UnpackQuote(CLASSES, PackQuote(q).value + tail) == Some(q)
  {
    hide Size, Solid, WellFormed, UnpackQuote;
    QuoteClassesAreSolid();
    EnclaveReportTable();
    QeReportCertDataTable();
    UnpackPackedQuote(CLASSES, q, tail);
  }

  // ----- the methods of the class

  /** Header, optional descriptor and body. */
  method ReadRecords(c: Classes, data: bytes) returns (s: Option<Signed>)
    ensures s == ReadSigned(c, data)
  {
    hide Slice, Take, Unpack, Size, Num, BodySchema;
    var header := Unpack(c.header, data);
    if header.None? { return None; }
    var offset := Size(c.header);
    var descriptor: Option<Value> := None;
    var schema := c.bodyV4;
    var version := Num(header.value, "version");
    if version == 5 {
      descriptor := Take(c.descriptor, data, offset);
      if descriptor.None? { return None; }
      offset := offset + Size(c.descriptor);
      var chosen := BodySchema(c, descriptor.value);
      if chosen.None? { return None; }
      schema := chosen.value;
    } else if version != 4 {
      return None;
    }
    var body := Take(schema, data, offset);
    if body.None? { return None; }
    offset := offset + Size(schema);
    s := Some(Signed(header.value, descriptor, body.value, offset));
  }

  /** What the certification type says lies at `offset`. */
  method ReadCertification(c: Classes, data: bytes, bare: Quote, at: nat) returns (r: Option<Quote>)
    ensures r == UnpackCert(c, data, bare, at)
  {
    hide Slice, Take, Size, Num;
    var q, offset := bare, at;
    var certType := Num(q.certHeader, "type");
    if certType == 6 {
      var qe := Take(c.qeCertData, data, offset);
      if qe.None? { return None; }
      var report := Slice(data, offset, offset + Size(c.report));
      offset := offset + Size(c.qeCertData);
      var authSize := Num(qe.value, "qe_auth_data_size");
      var auth := Slice(data, offset, offset + authSize);
      offset := offset + authSize;
      var pck := Take(c.certHeader, data, offset);
      if pck.None? { return None; }
      offset := offset + Size(c.certHeader);
      q := q.(qeCertData := qe, rawQeReport := report, qeAuth := Some(auth), pckHeader := pck,
              chain := Slice(data, offset, offset + Num(pck.value, "size")));
    } else if certType == 5 {
      q := q.(chain := Slice(data, offset, offset + Num(q.certHeader, "size")));
    } else {
      return None;
    }
    r := Some(q);
  }

  method UnpackObject(c: Classes, data: bytes) returns (r: Option<Quote>)
    ensures r == UnpackQuote(c, data)
  {
    hide ReadSigned, UnpackCert, Slice, Take, Size;
    var s := ReadRecords(c, data);
    if s.None? { return None; }
    var offset := s.value.end;
    var raw := Slice(data, 0, offset);
    var sigData := Take(c.sigData, data, offset);
    if sigData.None? { return None; }
    offset := offset + Size(c.sigData);
    var certHeader := Take(c.certHeader, data, offset);
    if certHeader.None? { return None; }
    offset := offset + Size(c.certHeader);
    var q := Quote(s.value.header, s.value.descriptor, s.value.body, raw, sigData.value, certHeader.value,
                   None, [], None, None, []);
    r := ReadCertification(c, data, q, offset);
  }

  /** Collects the packed parts and joins them. */
  method PackObject(q: Quote) returns (r: Option<bytes>)
    ensures r == PackQuote(q)
  {
    hide PackPart;
    var header := PackPart(Some(q.header));
    if header.None? { return None; }
    var descriptor := PackPart(if Num(q.header, "version") == 5 then q.descriptor else None);
    if descriptor.None? { return None; }
    var body := PackPart(Some(q.body));
    if body.None? { return None; }
    var sigData := PackPart(Some(q.sigData));
    if sigData.None? { return None; }
    var certHeader := PackPart(Some(q.certHeader));
    if certHeader.None? { return None; }
    var certType := Num(q.certHeader, "type");
    var cert: seq<bytes> := [];
    if certType == 6 {
      var qe := PackPart(q.qeCertData);
      if qe.None? { return None; }
      var pck := PackPart(q.pckHeader);
      if pck.None? { return None; }
      cert := [qe.value, if q.qeAuth.Some? then q.qeAuth.value else [], pck.value, q.chain];
    } else if certType == 5 {
      cert := [q.chain];
    }
    ConcatShort(cert);
    assert PackCert(q) == Some(Concat(cert));
    var fixed := [header.value, descriptor.value, body.value, sigData.value, certHeader.value];
    ConcatAppend(fixed, cert);
    ConcatFive(fixed);
    var out := Join(fixed + cert);
    r := Some(out);
  }

  lemma ConcatFive(p: seq<bytes>)
    requires |p| == 5
    ensures Concat(p) == p[0] + p[1] + p[2] + p[3] + p[4]
  {
    assert p == p[..4] + [p[4]];
    ConcatLast(p[..4], p[4]);
    ConcatShort(p[..4]);
  }

  lemma ConcatShort(p: seq<bytes>)
    ensures |p| == 0 ==> Concat(p) == []
    ensures |p| == 1 ==> Concat(p) == p[0]
    ensures |p| == 4 ==> Concat(p) == p[0] + p[1] + p[2] + p[3]
  {
    if |p| == 4 {
      assert Concat(p[3..]) == p[3] + Concat(p[4..]) == p[3];
      assert p[2..][1..] == p[3..] && Concat(p[2..]) == p[2] + p[3];
      assert p[1..][1..] == p[2..] && Concat(p[1..]) == p[1] + (p[2] + p[3]);
    }
  }
}
