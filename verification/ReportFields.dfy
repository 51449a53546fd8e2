/** What each field of an attestation report is, in bytes and bits of the report (section 7.3 of the SEV-SNP Firmware ABI
    Specification). */
module ReportFields {
  import opened Bytes
  import opened Schema
  import opened FieldPlaces
  import opened SnpReport

  /** The record has a nested record there: what those bytes unpack to. */
  predicate HasRecord(record: Value, name: string, schema: Schema, bytes: bytes) {
    record.Rec? && name in record.data && Unpack(schema, bytes) == Some(record.data[name])
  }

  lemma AllPlaces()
    ensures |SNP_PLACES| == |SNP_FIELDS| + 1 == 31 && SNP_PLACES[0] == 0 && Places(SNP_FIELDS, SNP_PLACES, 0, 30)
  {
    hide KindSize, Offset, Places;
    SnpEnds();
    SnpPlaces0();
    SnpPlaces1();
    SnpPlaces2();
    SnpPlaces3();
    PlacesOn(SNP_FIELDS, SNP_PLACES, 0, 5, 10);
    PlacesOn(SNP_FIELDS, SNP_PLACES, 0, 10, 20);
    PlacesOn(SNP_FIELDS, SNP_PLACES, 0, 20, 30);
  }

  lemma FieldAt(data: bytes, i: nat, name: string, kind: Kind, at: nat)
    requires |data| >= 1184 && i < 30 == |SNP_FIELDS| && |SNP_PLACES| == 31
    requires SNP_FIELDS[i] == Field(name, kind) && SNP_PLACES[i] == at
    ensures Unpack(SNP_ATTESTATION, data).Some? && Unpack(SNP_ATTESTATION, data).value.Rec?
    ensures var fields := Unpack(SNP_ATTESTATION, data).value.data;
            name in fields && Spelled(kind, data, at, fields[name])
  {
    hide Covered, KindSize, Offset, Places, Unpack, Spelled;
    SnpAttestationTable();
    AllPlaces();
    PlacesBefore(SNP_FIELDS, SNP_PLACES, i, 30);
    OffsetIsPlace(SNP_FIELDS, SNP_PLACES, i);
    FieldHolds(SNP_ATTESTATION, i, at, data);
  }

  lemma NumberAt(data: bytes, i: nat, name: string, w: nat, at: nat)
    requires |data| >= 1184 && i < 30 == |SNP_FIELDS| && |SNP_PLACES| == 31 && (w == 4 || w == 8)
    requires SNP_FIELDS[i] == Field(name, UInt(w)) && SNP_PLACES[i] == at
    ensures at + w <= |data|
    ensures Has(Unpacked(data), name, Int(if w == 4 then Low4(data, at) else Low8(data, at)))
  {
    hide Unpack;
    FieldAt(data, i, name, UInt(w), at);
  }

  lemma BlockAt(data: bytes, i: nat, name: string, n: nat, at: nat)
    requires |data| >= 1184 && i < 30 == |SNP_FIELDS| && |SNP_PLACES| == 31 && n > 0
    requires SNP_FIELDS[i] == Field(name, Block(n)) && SNP_PLACES[i] == at
    ensures at + n <= |data| && Has(Unpacked(data), name, Blob(data[at..at + n]))
  {
    hide Unpack;
    FieldAt(data, i, name, Block(n), at);
  }

  lemma RecordAt(data: bytes, i: nat, name: string, schema: Schema, at: nat, to: nat)
    requires |data| >= 1184 && i < 30 == |SNP_FIELDS| && |SNP_PLACES| == 31 && Size(schema) == to - at && at <= to <= 1184
    requires SNP_FIELDS[i] == Field(name, Sub(schema)) && SNP_PLACES[i] == at
    ensures HasRecord(Unpacked(data), name, schema, data[at..to])
  {
    hide Unpack;
    FieldAt(data, i, name, Sub(schema), at);
  }

  function Unpacked(data: bytes): Value
    requires |data| >= 1184
  {
    ReportRoundTrip(data);
    UnpackReport(data).value.record
  }

  lemma Rows0()
    ensures |SNP_FIELDS| == 30 && |SNP_PLACES| == 31
    ensures SNP_FIELDS[0] == Field("version", UInt(4)) && SNP_PLACES[0] == 0
    ensures SNP_FIELDS[1] == Field("guest_svn", UInt(4)) && SNP_PLACES[1] == 4
  {
    hide CPU_ID, FW_VERSION, GUEST_POLICY, PLATFORM_INFO, REPORT_FLAGS, SIGNATURE, TCB_VERSION;
  }

  lemma Rows2()
    ensures |SNP_FIELDS| == 30 && |SNP_PLACES| == 31
    ensures SNP_FIELDS[2] == Field("policy", Sub(GUEST_POLICY)) && SNP_PLACES[2] == 8
    ensures SNP_FIELDS[3] == Field("family_id", Block(16)) && SNP_PLACES[3] == 16
  {
    hide CPU_ID, FW_VERSION, GUEST_POLICY, PLATFORM_INFO, REPORT_FLAGS, SIGNATURE, TCB_VERSION;
  }

  lemma FirstFields(data: bytes)
    requires |data| >= 1184
    ensures var r := Unpacked(data);
            && Has(r, "version", Int(Low4(data, 0)))
            && Has(r, "guest_svn", Int(Low4(data, 4)))
            && HasRecord(r, "policy", GUEST_POLICY, data[8..16])
            && Has(r, "family_id", Blob(data[16..32]))
  {
    hide Has, HasRecord, Unpacked, Covered, KindSize, Offset, SNP_FIELDS, SNP_PLACES;
    hide CPU_ID, FW_VERSION, GUEST_POLICY, PLATFORM_INFO, REPORT_FLAGS, SIGNATURE, TCB_VERSION;
    Rows0();
    Rows2();
    GuestPolicyTable();
    NumberAt(data, 0, "version", 4, 0);
    NumberAt(data, 1, "guest_svn", 4, 4);
    RecordAt(data, 2, "policy", GUEST_POLICY, 8, 16);
    BlockAt(data, 3, "family_id", 16, 16);
  }

  lemma Rows4()
    ensures |SNP_FIELDS| == 30 && |SNP_PLACES| == 31
    ensures SNP_FIELDS[4] == Field("image_id", Block(16)) && SNP_PLACES[4] == 32
    ensures SNP_FIELDS[5] == Field("vmpl", UInt(4)) && SNP_PLACES[5] == 48
  {
    hide CPU_ID, FW_VERSION, GUEST_POLICY, PLATFORM_INFO, REPORT_FLAGS, SIGNATURE, TCB_VERSION;
  }

  lemma Rows6()
    ensures |SNP_FIELDS| == 30 && |SNP_PLACES| == 31
    ensures SNP_FIELDS[6] == Field("signature_algorithm", UInt(4)) && SNP_PLACES[6] == 52
    ensures SNP_FIELDS[7] == Field("current_tcb", Sub(TCB_VERSION)) && SNP_PLACES[7] == 56
  {
    hide CPU_ID, FW_VERSION, GUEST_POLICY, PLATFORM_INFO, REPORT_FLAGS, SIGNATURE, TCB_VERSION;
  }

  lemma SecondFields(data: bytes)
    requires |data| >= 1184
    ensures var r := Unpacked(data);
            && Has(r, "image_id", Blob(data[32..48]))
            && Has(r, "vmpl", Int(Low4(data, 48)))
            && Has(r, "signature_algorithm", Int(Low4(data, 52)))
            && HasRecord(r, "current_tcb", TCB_VERSION, data[56..64])
  {
    hide Has, HasRecord, Unpacked, Covered, KindSize, Offset, SNP_FIELDS, SNP_PLACES;
    hide CPU_ID, FW_VERSION, GUEST_POLICY, PLATFORM_INFO, REPORT_FLAGS, SIGNATURE, TCB_VERSION;
    Rows4();
    Rows6();
    TcbVersionTable();
    BlockAt(data, 4, "image_id", 16, 32);
    NumberAt(data, 5, "vmpl", 4, 48);
    NumberAt(data, 6, "signature_algorithm", 4, 52);
    RecordAt(data, 7, "current_tcb", TCB_VERSION, 56, 64);
  }

  lemma Rows8()
    ensures |SNP_FIELDS| == 30 && |SNP_PLACES| == 31
    ensures SNP_FIELDS[8] == Field("platform_info", Sub(PLATFORM_INFO)) && SNP_PLACES[8] == 64
    ensures SNP_FIELDS[9] == Field("flags", Sub(REPORT_FLAGS)) && SNP_PLACES[9] == 72
  {
    hide CPU_ID, FW_VERSION, GUEST_POLICY, PLATFORM_INFO, REPORT_FLAGS, SIGNATURE, TCB_VERSION;
  }

  lemma Rows10()
    ensures |SNP_FIELDS| == 30 && |SNP_PLACES| == 31
    ensures SNP_FIELDS[10] == Field("reserved_zero", UInt(4)) && SNP_PLACES[10] == 76
    ensures SNP_FIELDS[11] == Field("report_data", Block(64)) && SNP_PLACES[11] == 80
  {
    hide CPU_ID, FW_VERSION, GUEST_POLICY, PLATFORM_INFO, REPORT_FLAGS, SIGNATURE, TCB_VERSION;
  }

  lemma ThirdFields(data: bytes)
    requires |data| >= 1184
    ensures var r := Unpacked(data);
            && HasRecord(r, "platform_info", PLATFORM_INFO, data[64..72])
            && HasRecord(r, "flags", REPORT_FLAGS, data[72..76])
            && Has(r, "reserved_zero", Int(Low4(data, 76)))
            && Has(r, "report_data", Blob(data[80..144]))
  {
    hide Has, HasRecord, Unpacked, Covered, KindSize, Offset, SNP_FIELDS, SNP_PLACES;
    hide CPU_ID, FW_VERSION, GUEST_POLICY, PLATFORM_INFO, REPORT_FLAGS, SIGNATURE, TCB_VERSION;
    Rows8();
    Rows10();
    PlatformInfoTable();
    ReportFlagsTable();
    RecordAt(data, 8, "platform_info", PLATFORM_INFO, 64, 72);
    RecordAt(data, 9, "flags", REPORT_FLAGS, 72, 76);
    NumberAt(data, 10, "reserved_zero", 4, 76);
    BlockAt(data, 11, "report_data", 64, 80);
  }

  lemma Rows12()
    ensures |SNP_FIELDS| == 30 && |SNP_PLACES| == 31
    ensures SNP_FIELDS[12] == Field("measurement", Block(48)) && SNP_PLACES[12] == 144
    ensures SNP_FIELDS[13] == Field("host_data", Block(32)) && SNP_PLACES[13] == 192
  {
    hide CPU_ID, FW_VERSION, GUEST_POLICY, PLATFORM_INFO, REPORT_FLAGS, SIGNATURE, TCB_VERSION;
  }

  lemma Rows14()
    ensures |SNP_FIELDS| == 30 && |SNP_PLACES| == 31
    ensures SNP_FIELDS[14] == Field("id_key_digest", Block(48)) && SNP_PLACES[14] == 224
    ensures SNP_FIELDS[15] == Field("author_key_digest", Block(48)) && SNP_PLACES[15] == 272
  {
    hide CPU_ID, FW_VERSION, GUEST_POLICY, PLATFORM_INFO, REPORT_FLAGS, SIGNATURE, TCB_VERSION;
  }

  lemma FourthFields(data: bytes)
    requires |data| >= 1184
    ensures var r := Unpacked(data);
            && Has(r, "measurement", Blob(data[144..192]))
            && Has(r, "host_data", Blob(data[192..224]))
            && Has(r, "id_key_digest", Blob(data[224..272]))
            && Has(r, "author_key_digest", Blob(data[272..320]))
  {
    hide Has, HasRecord, Unpacked, Covered, KindSize, Offset, SNP_FIELDS, SNP_PLACES;
    hide CPU_ID, FW_VERSION, GUEST_POLICY, PLATFORM_INFO, REPORT_FLAGS, SIGNATURE, TCB_VERSION;
    Rows12();
    Rows14();
    BlockAt(data, 12, "measurement", 48, 144);
    BlockAt(data, 13, "host_data", 32, 192);
    BlockAt(data, 14, "id_key_digest", 48, 224);
    BlockAt(data, 15, "author_key_digest", 48, 272);
  }

  lemma Rows16()
    ensures |SNP_FIELDS| == 30 && |SNP_PLACES| == 31
    ensures SNP_FIELDS[16] == Field("report_id", Block(32)) && SNP_PLACES[16] == 320
    ensures SNP_FIELDS[17] == Field("report_id_ma", Block(32)) && SNP_PLACES[17] == 352
  {
    hide CPU_ID, FW_VERSION, GUEST_POLICY, PLATFORM_INFO, REPORT_FLAGS, SIGNATURE, TCB_VERSION;
  }

  lemma Rows18()
    ensures |SNP_FIELDS| == 30 && |SNP_PLACES| == 31
    ensures SNP_FIELDS[18] == Field("reported_tcb", Sub(TCB_VERSION)) && SNP_PLACES[18] == 384
    ensures SNP_FIELDS[19] == Field("cpuid", Sub(CPU_ID)) && SNP_PLACES[19] == 392
  {
    hide CPU_ID, FW_VERSION, GUEST_POLICY, PLATFORM_INFO, REPORT_FLAGS, SIGNATURE, TCB_VERSION;
  }

  lemma FifthFields(data: bytes)
    requires |data| >= 1184
    ensures var r := Unpacked(data);
            && Has(r, "report_id", Blob(data[320..352]))
            && Has(r, "report_id_ma", Blob(data[352..384]))
            && HasRecord(r, "reported_tcb", TCB_VERSION, data[384..392])
            && HasRecord(r, "cpuid", CPU_ID, data[392..395])
  {
    hide Has, HasRecord, Unpacked, Covered, KindSize, Offset, SNP_FIELDS, SNP_PLACES;
    hide CPU_ID, FW_VERSION, GUEST_POLICY, PLATFORM_INFO, REPORT_FLAGS, SIGNATURE, TCB_VERSION;
    Rows16();
    Rows18();
    TcbVersionTable();
    CpuIdTable();
    BlockAt(data, 16, "report_id", 32, 320);
    BlockAt(data, 17, "report_id_ma", 32, 352);
    RecordAt(data, 18, "reported_tcb", TCB_VERSION, 384, 392);
    RecordAt(data, 19, "cpuid", CPU_ID, 392, 395);
  }

  lemma Rows20()
    ensures |SNP_FIELDS| == 30 && |SNP_PLACES| == 31
    ensures SNP_FIELDS[20] == Field("reserved_one", Block(21)) && SNP_PLACES[20] == 395
    ensures SNP_FIELDS[21] == Field("chip_id", Block(64)) && SNP_PLACES[21] == 416
  {
    hide CPU_ID, FW_VERSION, GUEST_POLICY, PLATFORM_INFO, REPORT_FLAGS, SIGNATURE, TCB_VERSION;
  }

  lemma Rows22()
    ensures |SNP_FIELDS| == 30 && |SNP_PLACES| == 31
    ensures SNP_FIELDS[22] == Field("committed_tcb", Sub(TCB_VERSION)) && SNP_PLACES[22] == 480
    ensures SNP_FIELDS[23] == Field("current_fw", Sub(FW_VERSION)) && SNP_PLACES[23] == 488
  {
    hide CPU_ID, FW_VERSION, GUEST_POLICY, PLATFORM_INFO, REPORT_FLAGS, SIGNATURE, TCB_VERSION;
  }

  lemma SixthFields(data: bytes)
    requires |data| >= 1184
    ensures var r := Unpacked(data);
            && Has(r, "reserved_one", Blob(data[395..416]))
            && Has(r, "chip_id", Blob(data[416..480]))
            && HasRecord(r, "committed_tcb", TCB_VERSION, data[480..488])
            && HasRecord(r, "current_fw", FW_VERSION, data[488..492])
  {
    hide Has, HasRecord, Unpacked, Covered, KindSize, Offset, SNP_FIELDS, SNP_PLACES;
    hide CPU_ID, FW_VERSION, GUEST_POLICY, PLATFORM_INFO, REPORT_FLAGS, SIGNATURE, TCB_VERSION;
    Rows20();
    Rows22();
    TcbVersionTable();
    FwVersionTable();
    BlockAt(data, 20, "reserved_one", 21, 395);
    BlockAt(data, 21, "chip_id", 64, 416);
    RecordAt(data, 22, "committed_tcb", TCB_VERSION, 480, 488);
    RecordAt(data, 23, "current_fw", FW_VERSION, 488, 492);
  }

  lemma Rows24()
    ensures |SNP_FIELDS| == 30 && |SNP_PLACES| == 31
    ensures SNP_FIELDS[24] == Field("comitted_fw", Sub(FW_VERSION)) && SNP_PLACES[24] == 492
    ensures SNP_FIELDS[25] == Field("launch_tcb", Sub(TCB_VERSION)) && SNP_PLACES[25] == 496
  {
    hide CPU_ID, FW_VERSION, GUEST_POLICY, PLATFORM_INFO, REPORT_FLAGS, SIGNATURE, TCB_VERSION;
  }

  lemma Rows26()
    ensures |SNP_FIELDS| == 30 && |SNP_PLACES| == 31
    ensures SNP_FIELDS[26] == Field("launch_mit", UInt(8)) && SNP_PLACES[26] == 504
    ensures SNP_FIELDS[27] == Field("current_mit", UInt(8)) && SNP_PLACES[27] == 512
  {
    hide CPU_ID, FW_VERSION, GUEST_POLICY, PLATFORM_INFO, REPORT_FLAGS, SIGNATURE, TCB_VERSION;
  }

  lemma SeventhFields(data: bytes)
    requires |data| >= 1184
    ensures var r := Unpacked(data);
            && HasRecord(r, "comitted_fw", FW_VERSION, data[492..496])
            && HasRecord(r, "launch_tcb", TCB_VERSION, data[496..504])
            && Has(r, "launch_mit", Int(Low8(data, 504)))
            && Has(r, "current_mit", Int(Low8(data, 512)))
  {
    hide Has, HasRecord, Unpacked, Covered, KindSize, Offset, SNP_FIELDS, SNP_PLACES;
    hide CPU_ID, FW_VERSION, GUEST_POLICY, PLATFORM_INFO, REPORT_FLAGS, SIGNATURE, TCB_VERSION;
    Rows24();
    Rows26();
    FwVersionTable();
    TcbVersionTable();
    RecordAt(data, 24, "comitted_fw", FW_VERSION, 492, 496);
    RecordAt(data, 25, "launch_tcb", TCB_VERSION, 496, 504);
    NumberAt(data, 26, "launch_mit", 8, 504);
    NumberAt(data, 27, "current_mit", 8, 512);
  }

  lemma Rows28()
    ensures |SNP_FIELDS| == 30 && |SNP_PLACES| == 31
    ensures SNP_FIELDS[28] == Field("reserved_two", Block(152)) && SNP_PLACES[28] == 520
    ensures SNP_FIELDS[29] == Field("signature", Sub(SIGNATURE)) && SNP_PLACES[29] == 672
  {
    hide CPU_ID, FW_VERSION, GUEST_POLICY, PLATFORM_INFO, REPORT_FLAGS, SIGNATURE, TCB_VERSION;
  }

  lemma EighthFields(data: bytes)
    requires |data| >= 1184
    ensures var r := Unpacked(data);
            && Has(r, "reserved_two", Blob(data[520..672]))
            && HasRecord(r, "signature", SIGNATURE, data[672..1184])
  {
    hide Has, HasRecord, Unpacked, Covered, KindSize, Offset, SNP_FIELDS, SNP_PLACES;
    hide CPU_ID, FW_VERSION, GUEST_POLICY, PLATFORM_INFO, REPORT_FLAGS, SIGNATURE, TCB_VERSION;
    Rows28();
    SignatureTable();
    BlockAt(data, 28, "reserved_two", 152, 520);
    RecordAt(data, 29, "signature", SIGNATURE, 672, 1184);
  }

  /** Every field of a report, by the bytes it is read from. */
  lemma ReportSays(data: bytes)
    requires |data| >= 1184
    ensures var r := Unpacked(data);
            && Has(r, "version", Int(Low4(data, 0))) && Has(r, "guest_svn", Int(Low4(data, 4)))
            && HasRecord(r, "policy", GUEST_POLICY, data[8..16]) && Has(r, "family_id", Blob(data[16..32]))
            && Has(r, "image_id", Blob(data[32..48])) && Has(r, "vmpl", Int(Low4(data, 48)))
            && Has(r, "signature_algorithm", Int(Low4(data, 52)))
            && HasRecord(r, "current_tcb", TCB_VERSION, data[56..64])
            && HasRecord(r, "platform_info", PLATFORM_INFO, data[64..72])
            && HasRecord(r, "flags", REPORT_FLAGS, data[72..76]) && Has(r, "reserved_zero", Int(Low4(data, 76)))
            && Has(r, "report_data", Blob(data[80..144])) && Has(r, "measurement", Blob(data[144..192]))
            && Has(r, "host_data", Blob(data[192..224])) && Has(r, "id_key_digest", Blob(data[224..272]))
            && Has(r, "author_key_digest", Blob(data[272..320])) && Has(r, "report_id", Blob(data[320..352]))
            && Has(r, "report_id_ma", Blob(data[352..384]))
            && HasRecord(r, "reported_tcb", TCB_VERSION, data[384..392])
            && HasRecord(r, "cpuid", CPU_ID, data[392..395]) && Has(r, "reserved_one", Blob(data[395..416]))
            && Has(r, "chip_id", Blob(data[416..480]))
            && HasRecord(r, "committed_tcb", TCB_VERSION, data[480..488])
            && HasRecord(r, "current_fw", FW_VERSION, data[488..492])
            && HasRecord(r, "comitted_fw", FW_VERSION, data[492..496])
            && HasRecord(r, "launch_tcb", TCB_VERSION, data[496..504])
            && Has(r, "launch_mit", Int(Low8(data, 504))) && Has(r, "current_mit", Int(Low8(data, 512)))
            && Has(r, "reserved_two", Blob(data[520..672]))
            && HasRecord(r, "signature", SIGNATURE, data[672..1184])
  {
    hide Has, HasRecord, Unpacked;
    FirstFields(data);
    SecondFields(data);
    ThirdFields(data);
    FourthFields(data);
    FifthFields(data);
    SixthFields(data);
    SeventhFields(data);
    EighthFields(data);
  }

  // ----- the flags

  lemma FlagAt(schema: Schema, b: bytes, i: nat, name: string, k: nat, at: nat)
    requires Covered(schema) && schema.hook.Plain? && Size(schema) <= |b| && i < |schema.fields| && at < |b|
    requires schema.fields[i] == Field(name, Flag(k)) && Offset(schema.fields, i) == at
    ensures Unpack(schema, b).Some? && Has(Unpack(schema, b).value, name, Bool(BitOf(b[at], k)))
  {
    hide Unpack, Covered, BitOf, Offset;
    FieldHolds(schema, i, at, b);
  }

  /** The ten flags of the guest policy are the bits of its third byte, the lowest first. There is no ninth and tenth bit. */
  lemma PolicyFlags(b: bytes)
    requires |b| >= 8
    ensures Unpack(GUEST_POLICY, b).Some?
    ensures var r := Unpack(GUEST_POLICY, b).value;
            && Has(r, "abi_minor", Int(b[0] as int)) && Has(r, "abi_major", Int(b[1] as int))
            && Has(r, "smt", Bool(BitOf(b[2], 0))) && Has(r, "mbo", Bool(BitOf(b[2], 1)))
            && Has(r, "migrate_ma", Bool(BitOf(b[2], 2))) && Has(r, "debug", Bool(BitOf(b[2], 3)))
            && Has(r, "single_socket", Bool(BitOf(b[2], 4))) && Has(r, "cxl_allow", Bool(BitOf(b[2], 5)))
            && Has(r, "mem_aes_256_xts", Bool(BitOf(b[2], 6))) && Has(r, "rapl_dis", Bool(BitOf(b[2], 7)))
            && Has(r, "ciphertext_hiding_dram", Bool(false)) && Has(r, "page_swap_disable", Bool(false))
  {
    hide Unpack, BitOf, Covered, Has, Offset;
    PolicyNumber(b, 0, "abi_minor");
    PolicyNumber(b, 1, "abi_major");
    LowPolicyFlags(b);
    HighPolicyFlags(b);
    NoNinthBit(b[2]);
  }

  lemma PolicyTable()
    ensures var fs := GUEST_POLICY.fields;
            && |fs| == 13 && fs[2] == Field("smt", Flag(0)) && fs[3] == Field("mbo", Flag(1))
            && fs[4] == Field("migrate_ma", Flag(2)) && fs[5] == Field("debug", Flag(3))
            && fs[6] == Field("single_socket", Flag(4)) && fs[7] == Field("cxl_allow", Flag(5))
            && fs[8] == Field("mem_aes_256_xts", Flag(6)) && fs[9] == Field("rapl_dis", Flag(7))
            && fs[10] == Field("ciphertext_hiding_dram", Flag(8)) && fs[11] == Field("page_swap_disable", Flag(9))
  {
  }

  lemma LowPolicyFlags(b: bytes)
    requires |b| >= 8
    ensures Unpack(GUEST_POLICY, b).Some?
    ensures var r := Unpack(GUEST_POLICY, b).value;
            && Has(r, "smt", Bool(BitOf(b[2], 0))) && Has(r, "mbo", Bool(BitOf(b[2], 1)))
            && Has(r, "migrate_ma", Bool(BitOf(b[2], 2))) && Has(r, "debug", Bool(BitOf(b[2], 3)))
            && Has(r, "single_socket", Bool(BitOf(b[2], 4)))
  {
    hide Unpack, BitOf, Covered, Has, Offset, GUEST_POLICY;
    PolicyTable();
    PolicyFlag(b, 0, "smt");
    PolicyFlag(b, 1, "mbo");
    PolicyFlag(b, 2, "migrate_ma");
    PolicyFlag(b, 3, "debug");
    PolicyFlag(b, 4, "single_socket");
  }

  lemma HighPolicyFlags(b: bytes)
    requires |b| >= 8
    ensures Unpack(GUEST_POLICY, b).Some?
    ensures var r := Unpack(GUEST_POLICY, b).value;
            && Has(r, "cxl_allow", Bool(BitOf(b[2], 5)))
            && Has(r, "mem_aes_256_xts", Bool(BitOf(b[2], 6))) && Has(r, "rapl_dis", Bool(BitOf(b[2], 7)))
            && Has(r, "ciphertext_hiding_dram", Bool(BitOf(b[2], 8))) && Has(r, "page_swap_disable", Bool(BitOf(b[2], 9)))
  {
    hide Unpack, BitOf, Covered, Has, Offset, GUEST_POLICY;
    PolicyTable();
    PolicyFlag(b, 5, "cxl_allow");
    PolicyFlag(b, 6, "mem_aes_256_xts");
    PolicyFlag(b, 7, "rapl_dis");
    PolicyFlag(b, 8, "ciphertext_hiding_dram");
    PolicyFlag(b, 9, "page_swap_disable");
  }

  lemma NoNinthBit(b: byte)
    ensures !BitOf(b, 8) && !BitOf(b, 9)
  {
  }

  lemma PolicyNumber(b: bytes, i: nat, name: string)
    requires |b| >= 8 && i < 2 && GUEST_POLICY.fields[i].name == name
    ensures Unpack(GUEST_POLICY, b).Some? && Has(Unpack(GUEST_POLICY, b).value, name, Int(b[i] as int))
  {
    hide Unpack, Covered;
    var fs := GUEST_POLICY.fields;
    GuestPolicyTable();
    NoOffset(fs);
    OffsetStep(fs, 1);
    FieldHolds(GUEST_POLICY, i, i, b);
  }

  lemma PolicyFlag(b: bytes, k: nat, name: string)
    requires |b| >= 8 && k < 10 && |GUEST_POLICY.fields| == 13 && GUEST_POLICY.fields[2 + k] == Field(name, Flag(k))
    ensures Unpack(GUEST_POLICY, b).Some? && Has(Unpack(GUEST_POLICY, b).value, name, Bool(BitOf(b[2], k)))
  {
    hide Unpack, Covered, BitOf, Offset, Has;
    GuestPolicyTable();
    PolicyOffset(GUEST_POLICY.fields, k);
    FlagAt(GUEST_POLICY, b, 2 + k, name, k, 2);
  }

  lemma PolicyOffset(fs: seq<Field>, k: nat)
    requires fs == GUEST_POLICY.fields && k < 10 && |fs| == 13
    ensures Offset(fs, 2 + k) == 2
  {
    hide Offset;
    PolicyKinds(fs);
    NoOffset(fs);
    OffsetStep(fs, 1);
    OffsetStep(fs, 2);
    FlagsHaveNoWidth(fs, 2, 2 + k);
  }

  lemma PolicyKinds(fs: seq<Field>)
    requires fs == GUEST_POLICY.fields
    ensures |fs| == 13 && KindSize(fs[0].kind) == 1 && KindSize(fs[1].kind) == 1 && forall i | 2 <= i < 12 :: fs[i].kind.Flag?
  {
  }

  /** The platform's flags are the bits of its first byte. */
  lemma PlatformFlags(b: bytes)
    requires |b| >= 8
    ensures Unpack(PLATFORM_INFO, b).Some?
    ensures var r := Unpack(PLATFORM_INFO, b).value;
            && Has(r, "smt_en", Bool(BitOf(b[0], 0))) && Has(r, "tsme_en", Bool(BitOf(b[0], 1)))
            && Has(r, "ecc_en", Bool(BitOf(b[0], 2))) && Has(r, "rapl_dis", Bool(BitOf(b[0], 3)))
            && Has(r, "ciphertext_hiding_dram_en", Bool(BitOf(b[0], 4)))
            && Has(r, "alias_check_complete", Bool(BitOf(b[0], 5)))
            && Has(r, "unknown", Bool(BitOf(b[0], 6))) && Has(r, "tio_en", Bool(BitOf(b[0], 7)))
  {
    hide Unpack, BitOf, Covered, Has, PLATFORM_INFO;
    PlatformTable();
    PlatformFlag(b, 0, "smt_en");
    PlatformFlag(b, 1, "tsme_en");
    PlatformFlag(b, 2, "ecc_en");
    PlatformFlag(b, 3, "rapl_dis");
    PlatformFlag(b, 4, "ciphertext_hiding_dram_en");
    PlatformFlag(b, 5, "alias_check_complete");
    PlatformFlag(b, 6, "unknown");
    PlatformFlag(b, 7, "tio_en");
  }

  lemma PlatformTable()
    ensures var fs := PLATFORM_INFO.fields;
            && |fs| == 9 && fs[0] == Field("smt_en", Flag(0)) && fs[1] == Field("tsme_en", Flag(1))
            && fs[2] == Field("ecc_en", Flag(2)) && fs[3] == Field("rapl_dis", Flag(3))
            && fs[4] == Field("ciphertext_hiding_dram_en", Flag(4)) && fs[5] == Field("alias_check_complete", Flag(5))
            && fs[6] == Field("unknown", Flag(6)) && fs[7] == Field("tio_en", Flag(7))
  {
  }

  lemma PlatformFlag(b: bytes, k: nat, name: string)
    requires |b| >= 8 && k < 8 && |PLATFORM_INFO.fields| == 9 && PLATFORM_INFO.fields[k] == Field(name, Flag(k))
    ensures Unpack(PLATFORM_INFO, b).Some? && Has(Unpack(PLATFORM_INFO, b).value, name, Bool(BitOf(b[0], k)))
  {
    hide Unpack, Covered, BitOf, Offset, Has;
    PlatformInfoTable();
    PlatformKinds(PLATFORM_INFO.fields);
    NoOffset(PLATFORM_INFO.fields);
    FlagsHaveNoWidth(PLATFORM_INFO.fields, 0, k);
    FlagAt(PLATFORM_INFO, b, k, name, k, 0);
  }

  lemma PlatformKinds(fs: seq<Field>)
    requires fs == PLATFORM_INFO.fields
    ensures |fs| == 9 && forall i | 0 <= i < 8 :: fs[i].kind.Flag?
  {
  }

  /** The report's own flags are the two lowest bits; what is above them names the key that signed the report. */
  lemma ReportFlagBits(b: bytes)
    requires |b| >= 4
    ensures Unpack(REPORT_FLAGS, b).Some?
    ensures var r := Unpack(REPORT_FLAGS, b).value;
            && Has(r, "author_key_en", Bool(BitOf(b[0], 0))) && Has(r, "mask_chip_key", Bool(BitOf(b[0], 1)))
            && Has(r, "signing_key", Text(if b[0] < 4 then "VCEK" else "VLEK"))
  {
    hide Unpack, BitOf, Bit, Covered;
    ReportFlagsTable();
    var fs := REPORT_FLAGS.fields;
    NoOffset(fs);
    OffsetStep(fs, 1);
    FieldIs(REPORT_FLAGS, 0, b);
    FieldIs(REPORT_FLAGS, 1, b);
    FieldIs(REPORT_FLAGS, 2, b);
    BitIs(b[0], 0);
    BitIs(b[0], 1);
  }
}
