/** The SEV-SNP attestation report and the records inside it (types.js). */
module SnpReport {
  import opened Bytes
  import opened Schema

  const TCB_VERSION := Schema(
    [
      Field("bootloader", UInt(1)),
      Field("tee", UInt(1)),
      Field("reserved", Block(4)),
      Field("snp", UInt(1)),
      Field("microcode", UInt(1))
    ], Plain)

  const FW_VERSION := Schema(
    [
      Field("build", UInt(1)),
      Field("minor", UInt(1)),
      Field("major", UInt(1)),
      Field("reserved", UInt(1))
    ], Plain)

  const SIGNATURE := Schema(
    [
      Field("r", Block(72)),
      Field("s", Block(72)),
      Field("reserved", Block(368))
    ], Plain)

  const CPU_ID := Schema(
    [
      Field("family", UInt(1)),
      Field("model", UInt(1)),
      Field("stepping", UInt(1))
    ], Plain)

  const GUEST_POLICY := Schema(
    [
      Field("abi_minor", UInt(1)),
      Field("abi_major", UInt(1)),
      Field("smt", Flag(0)),
      Field("mbo", Flag(1)),
      Field("migrate_ma", Flag(2)),
      Field("debug", Flag(3)),
      Field("single_socket", Flag(4)),
      Field("cxl_allow", Flag(5)),
      Field("mem_aes_256_xts", Flag(6)),
      Field("rapl_dis", Flag(7)),
      Field("ciphertext_hiding_dram", Flag(8)),
      Field("page_swap_disable", Flag(9)),
      Field("reserved", Block(6))
    ], Plain)

  const PLATFORM_INFO := Schema(
    [
      Field("smt_en", Flag(0)),
      Field("tsme_en", Flag(1)),
      Field("ecc_en", Flag(2)),
      Field("rapl_dis", Flag(3)),
      Field("ciphertext_hiding_dram_en", Flag(4)),
      Field("alias_check_complete", Flag(5)),
      Field("unknown", Flag(6)),
      Field("tio_en", Flag(7)),
      Field("reserved", Block(8))
    ], Plain)

  const REPORT_FLAGS := Schema(
    [
      Field("author_key_en", Flag(0)),
      Field("mask_chip_key", Flag(1)),
      Field("signing_key", Custom(0)),
      Field("reserved", Block(4))
    ], SigningKey)

  const SNP_FIELDS: seq<Field> :=
    [
      Field("version", UInt(4)),
      Field("guest_svn", UInt(4)),
      Field("policy", Sub(GUEST_POLICY)),
      Field("family_id", Block(16)),
      Field("image_id", Block(16)),
      Field("vmpl", UInt(4)),
      Field("signature_algorithm", UInt(4)),
      Field("current_tcb", Sub(TCB_VERSION)),
      Field("platform_info", Sub(PLATFORM_INFO)),
      Field("flags", Sub(REPORT_FLAGS)),
      Field("reserved_zero", UInt(4)),
      Field("report_data", Block(64)),
      Field("measurement", Block(48)),
      Field("host_data", Block(32)),
      Field("id_key_digest", Block(48)),
      Field("author_key_digest", Block(48)),
      Field("report_id", Block(32)),
      Field("report_id_ma", Block(32)),
      Field("reported_tcb", Sub(TCB_VERSION)),
      Field("cpuid", Sub(CPU_ID)),
      Field("reserved_one", Block(21)),
      Field("chip_id", Block(64)),
      Field("committed_tcb", Sub(TCB_VERSION)),
      Field("current_fw", Sub(FW_VERSION)),
      Field("comitted_fw", Sub(FW_VERSION)),
      Field("launch_tcb", Sub(TCB_VERSION)),
      Field("launch_mit", UInt(8)),
      Field("current_mit", UInt(8)),
      Field("reserved_two", Block(152)),
      Field("signature", Sub(SIGNATURE))
    ]

  const SNP_ATTESTATION := Schema(SNP_FIELDS, Plain)

  lemma TcbVersionTable()
    ensures Covered(TCB_VERSION) && KindSize(Sub(TCB_VERSION)) == Size(TCB_VERSION) == 8
  {
    assert Offset(TCB_VERSION.fields, 2) == 2;
    assert Offset(TCB_VERSION.fields, 4) == 7;
    TableCovers(TCB_VERSION);
  }

  lemma FwVersionTable()
    ensures Covered(FW_VERSION) && KindSize(Sub(FW_VERSION)) == Size(FW_VERSION) == 4
  {
    assert Offset(FW_VERSION.fields, 2) == 2;
    TableCovers(FW_VERSION);
  }

  lemma SignatureTable()
    ensures Covered(SIGNATURE) && KindSize(Sub(SIGNATURE)) == Size(SIGNATURE) == 512
  {
    assert Offset(SIGNATURE.fields, 2) == 144;
    TableCovers(SIGNATURE);
  }

  lemma CpuIdTable()
    ensures Covered(CPU_ID) && KindSize(Sub(CPU_ID)) == Size(CPU_ID) == 3
  {
    assert Offset(CPU_ID.fields, 2) == 2;
    TableCovers(CPU_ID);
  }

  /** Ten booleans between two numbers and a block. */
  lemma GuestPolicySize()
    ensures Size(GUEST_POLICY) == 8
  {
    hide Offset;
    var fs := GUEST_POLICY.fields;
    NoOffset(fs);
    OffsetStep(fs, 1);
    OffsetStep(fs, 2);
    OffsetStep(fs, 13);
    FlagsHaveNoWidth(fs, 2, 12);
  }

  lemma {:induction false} FlagsHaveNoWidth(fields: seq<Field>, i: nat, n: nat)
    requires i <= n <= |fields| && forall k | i <= k < n :: fields[k].kind.Flag?
    ensures Offset(fields, n) == Offset(fields, i)
    decreases n - i
  {
    hide Offset;
    if i < n {
      FlagsHaveNoWidth(fields, i, n - 1);
      OffsetStep(fields, n);
    }
  }

  lemma GuestPolicyNames1()
    ensures var fs := GUEST_POLICY.fields;
            |fs| == 13 && forall i, j | 0 <= i < j < 7 :: fs[i].name != fs[j].name
  {
  }

  lemma GuestPolicyNames2()
    ensures var fs := GUEST_POLICY.fields;
            |fs| == 13 && forall i, j | 0 <= i < 7 <= j < 13 :: fs[i].name != fs[j].name
  {
  }

  lemma GuestPolicyNames3()
    ensures var fs := GUEST_POLICY.fields;
            |fs| == 13 && forall i, j | 7 <= i < j < 13 :: fs[i].name != fs[j].name
  {
  }

  lemma GuestPolicyNames()
    ensures UniqueNames(GUEST_POLICY.fields)
  {
    GuestPolicyNames1();
    GuestPolicyNames2();
    GuestPolicyNames3();
  }

  lemma GuestPolicyTable()
    ensures Covered(GUEST_POLICY) && KindSize(Sub(GUEST_POLICY)) == Size(GUEST_POLICY) == 8
  {
    hide Offset, Covered, UniqueNames;
    GuestPolicyNames();
    GuestPolicySize();
    TableCovers(GUEST_POLICY);
  }

  lemma PlatformInfoNames()
    ensures UniqueNames(PLATFORM_INFO.fields)
  {
  }

  /** Eight booleans in front of a block. */
  lemma PlatformInfoTable()
    ensures Covered(PLATFORM_INFO) && KindSize(Sub(PLATFORM_INFO)) == Size(PLATFORM_INFO) == 8
  {
    hide Offset, Covered, UniqueNames;
    var fs := PLATFORM_INFO.fields;
    NoOffset(fs);
    OffsetStep(fs, 9);
    FlagsHaveNoWidth(fs, 0, 8);
    PlatformInfoNames();
    TableCovers(PLATFORM_INFO);
  }

  lemma ReportFlagsTable()
    ensures Covered(REPORT_FLAGS) && KindSize(Sub(REPORT_FLAGS)) == Size(REPORT_FLAGS) == 4
  {
    assert Offset(REPORT_FLAGS.fields, 2) == 0;
    assert IsSigningKey(REPORT_FLAGS.fields, 2);
    TableCovers(REPORT_FLAGS);
  }

  /** Where the fields start, and where the last one ends. */
  const SNP_PLACES: seq<nat> :=
    [0, 4, 8, 16, 32, 48, 52, 56, 64, 72, 76, 80, 144, 192, 224, 272, 320, 352, 384, 392, 395, 416, 480, 488, 492, 496,
     504, 512, 520, 672, 1184]

  lemma SnpPlaces0()
    ensures |SNP_PLACES| == |SNP_FIELDS| + 1 == 31 && Places(SNP_FIELDS, SNP_PLACES, 0, 5)
  {
    hide Covered, Offset;
    GuestPolicyTable();
  }

  lemma SnpPlaces1()
    ensures |SNP_PLACES| == |SNP_FIELDS| + 1 == 31 && Places(SNP_FIELDS, SNP_PLACES, 5, 10)
  {
    hide Covered, Offset;
    TcbVersionTable();
    PlatformInfoTable();
    ReportFlagsTable();
  }

  lemma SnpPlaces2()
    ensures |SNP_PLACES| == |SNP_FIELDS| + 1 == 31 && Places(SNP_FIELDS, SNP_PLACES, 10, 20)
  {
    hide Covered, Offset;
    TcbVersionTable();
    CpuIdTable();
  }

  lemma SnpPlaces3()
    ensures |SNP_PLACES| == |SNP_FIELDS| + 1 == 31 && Places(SNP_FIELDS, SNP_PLACES, 20, 30)
  {
    hide Covered, Offset;
    TcbVersionTable();
    FwVersionTable();
    SignatureTable();
  }

  lemma SnpEnds()
    ensures |SNP_PLACES| == |SNP_FIELDS| + 1 == 31 && SNP_PLACES[0] == 0 && SNP_PLACES[29] == 672 && SNP_PLACES[30] == 1184
  {
  }

  lemma SnpAttestationSize()
    ensures |SNP_FIELDS| == 30 && Size(SNP_ATTESTATION) == 1184 && Offset(SNP_FIELDS, 29) == 672
  {
    hide KindSize, Offset, Places;
    SnpEnds();
    SnpPlaces0();
    SnpPlaces1();
    SnpPlaces2();
    SnpPlaces3();
    PlacesOn(SNP_FIELDS, SNP_PLACES, 0, 5, 10);
    PlacesOn(SNP_FIELDS, SNP_PLACES, 0, 10, 20);
    PlacesOn(SNP_FIELDS, SNP_PLACES, 0, 20, 30);
    PlacesBefore(SNP_FIELDS, SNP_PLACES, 29, 30);
    OffsetIsPlace(SNP_FIELDS, SNP_PLACES, 29);
    OffsetIsPlace(SNP_FIELDS, SNP_PLACES, 30);
  }

  lemma PlacesBefore(fields: seq<Field>, places: seq<nat>, m: nat, n: nat)
    requires m <= n <= |fields| && |places| == |fields| + 1 && Places(fields, places, 0, n)
    ensures Places(fields, places, 0, m)
  {
    hide KindSize;
  }

  lemma SnpNames1()
    ensures forall i, j | 0 <= i < j < 10 :: SNP_FIELDS[i].name != SNP_FIELDS[j].name
  {
  }

  lemma SnpNames2()
    ensures forall i, j | 10 <= i < j < 20 :: SNP_FIELDS[i].name != SNP_FIELDS[j].name
  {
  }

  lemma SnpNames3()
    ensures forall i, j | 20 <= i < j < 30 :: SNP_FIELDS[i].name != SNP_FIELDS[j].name
  {
  }

  lemma SnpNames4()
    ensures forall i, j | 0 <= i < 10 && 10 <= j < 20 :: SNP_FIELDS[i].name != SNP_FIELDS[j].name
  {
  }

  lemma SnpNames5()
    ensures forall i, j | 0 <= i < 10 && 20 <= j < 30 :: SNP_FIELDS[i].name != SNP_FIELDS[j].name
  {
  }

  lemma SnpNames6()
    ensures forall i, j | 10 <= i < 20 && 20 <= j < 30 :: SNP_FIELDS[i].name != SNP_FIELDS[j].name
  {
  }

  lemma SnpAttestationNames()
    ensures UniqueNames(SNP_FIELDS)
  {
    SnpNames1();
    SnpNames2();
    SnpNames3();
    SnpNames4();
    SnpNames5();
    SnpNames6();
  }

  lemma SnpAttestationTable()
    ensures Covered(SNP_ATTESTATION) && Size(SNP_ATTESTATION) == 1184
  {
    hide Covered, Offset, UniqueNames;
    TcbVersionTable();
    FwVersionTable();
    SignatureTable();
    CpuIdTable();
    GuestPolicyTable();
    PlatformInfoTable();
    ReportFlagsTable();
    SnpAttestationNames();
    TableCovers(SNP_ATTESTATION);
    SnpAttestationSize();
  }

  /** An unpacked report: the record and the bytes kept for the signature check. */
  datatype Report = Report(record: Value, raw: bytes)

  function UnpackReport(data: bytes): Option<Report> {
    var record :- Unpack(SNP_ATTESTATION, data);
    SnpAttestationTable();
    SignatureTable();
    Some(Report(record, Slice(data, 0, Size(SNP_ATTESTATION) - Size(SIGNATURE))))
  }

  /** Every report of at least 1184 bytes is accepted, packs back to its 1184 bytes, and keeps for the
      signature check exactly the packed bytes before the signature. */
  lemma ReportRoundTrip(data: bytes)
    requires |data| >= 1184
    ensures var r := UnpackReport(data);
            && r.Some? && r.value.record.Rec?
            && Pack(r.value.record) == Some(data[..1184])
            && r.value.raw == Pack(r.value.record).value[..672]
  {
    hide Covered, Offset, Unpack, Pack;
    SnpAttestationTable();
    SignatureTable();
    PackUnpack(SNP_ATTESTATION, data);
    assert data[..1184][..672] == data[..672];
  }

  /** Reports that are signed over the same bytes carry the same measurement, and the same every other field
      except the signature itself. */
  lemma SignedFieldsAgree(b: bytes, c: bytes, i: nat)
    requires |b| >= 1184 && |c| >= 1184 && i < |SNP_FIELDS| && SNP_FIELDS[i].name != "signature"
    requires UnpackReport(b).Some? && UnpackReport(c).Some? && UnpackReport(b).value.raw == UnpackReport(c).value.raw
    ensures var r, q := UnpackReport(b).value.record, UnpackReport(c).value.record;
            && r.Rec? && q.Rec? && SNP_FIELDS[i].name in r.data && SNP_FIELDS[i].name in q.data
            && r.data[SNP_FIELDS[i].name] == q.data[SNP_FIELDS[i].name]
  {
    hide Covered, Offset, Unpack, Slice, KindSize;
    SnpAttestationTable();
    SnpAttestationSize();
    RawIs(b);
    RawIs(c);
    BeforeSignature(i);
    OffsetMonotone(SNP_FIELDS, i + 1, 29);
    SnpSizedFields(i);
    FieldLocal(SNP_ATTESTATION, i, b, c, 672);
  }

  lemma RawIs(data: bytes)
    requires |data| >= 1184 && UnpackReport(data).Some?
    ensures Unpack(SNP_ATTESTATION, data) == Some(UnpackReport(data).value.record) && UnpackReport(data).value.raw == data[..672]
  {
    hide Covered, Offset, Unpack;
    SnpAttestationTable();
    SignatureTable();
    assert data[0..672] == data[..672];
  }

  lemma BeforeSignature(i: nat)
    requires i < |SNP_FIELDS| && SNP_FIELDS[i].name != "signature"
    ensures i < 29
  {
    assert |SNP_FIELDS| == 30 && SNP_FIELDS[29].name == "signature";
  }

  lemma SnpSizedFields(i: nat)
    requires i < |SNP_FIELDS|
    ensures !SNP_FIELDS[i].kind.Custom? && !SNP_FIELDS[i].kind.Flag?
  {
  }
}
