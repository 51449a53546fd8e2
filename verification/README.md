# Sylica verification models

Sylica is firmware for confidential virtual machines together with the tools that predict what such a machine will
measure. This project models the parts whose correctness the rest depends on and proves them with Dafny 4.11:

- **The fw_cfg cache** (`FwCfgDevice`, `FwCfgCache`, `FwCfgRuns`, `FwCfgDirectory`, `FwCfgHistory`, `FwCfgMeasured`,
  `FwCfgConflicts`, `FwCfgLibrary`). Items of an untrusted device are read once, measured and kept in hand-off blocks;
  caching the directory goes through the select path again. The device is an arbitrary stream of bytes, so it may answer
  the same question differently each time. Finite room for hand-off blocks is what makes the recursion end even for a
  directory that lists its own selector. Each block carries, in the model only, the table entry it was made for. A run is
  any sequence of selects, reads and file searches, with and without the cache, and of resets of the work area.
- **Boot blobs** (`BlobVerifier`, `SevHashes`, `HashTableBytes`, `QemuLoader`, `LoaderDirectory`, `StubFiles`,
  `BootChain`). The verifier of an injected hash table, the producer of that table, the loader that fetches blobs, and the
  read-only file system and initrd protocol that serve them. `BootChain` puts them together, from the launch hashes to the
  bytes a boot loader reads.
- **The record codec of the browser tool** (`Schema`, `Records`, `FieldPlaces`, `SnpReport`, `ReportFields`, `TdxQuote`,
  `QuotePlaces`, `CcelLog`, `LogPlaces`), with the SNP report, the TDX quote and the CCEL event log (TCG PC Client Platform
  Firmware Profile 1.05, section 10.2) built on it.
- **TDX measurements, written twice** (`GuidText`, `GuidTable`, `Tdvf`, `TdvfBytes`, `Sorting`, `Acceptor`, `TdHob`,
  `TdHobLayout`, `TdHobBytes`, `TdHobNumbers`, `Doubles`, `Hashing`, `Rtmr0`, `Mrtd`, `MrtdBytes`). The Python and the
  JavaScript predictors of MRTD and RTMR0, from the table walk at the end of the image to the register, and when exactly they
  agree.
- **Authenticode and the SNP launch digest** (`Authenticode`, `PeImage`, `LaunchDigest`, `SnpMeasure`, `SnpRecords`; Table 67
  of section 8.17.2 of the SEV-SNP Firmware ABI Specification).

`Bytes` holds bytes, little-endian integers and slices. Code that updates state is a class or a loop, proved against a
function of the same module; the theorems are lemmas about those functions. What the formats mean is stated a second time
without those functions, over bytes at their offsets, in the modules named after bytes, places and fields (and in
`LoaderDirectory`, `PeImage` and `SnpRecords`), and proved to be what the functions compute. Hash functions are arbitrary functions with
results of fixed length. A statement that equal digests mean equal inputs always reads "or these two different inputs have
one digest", with the two inputs computed by a function.

`dafny verify dfyconfig.toml` checks everything.

## What the code does not do

Some promised properties hold only under a condition that the code does not check. Each is proved together with
exactly when it holds, and with a concrete input or an explicit family of inputs for which it fails.

- `rtmr0.py` reads the metadata offset 0 when the 18 bytes in front of the GUIDed table spell an empty entry for it
  (`GuidTable.WalksAgree`; `GuidTable.SpelledReadsZero`).
- `rtmr0.py` fails for a memory of at least 0xB0000000 whose last range starts above 2 GiB, where the browser wraps a
  negative length (`TdHobLayout.PyBuildsExactly`; `TdHobLayout.SplitBehindTwoGiB`).
- The browser rounds the announced end of a hand-off block list to a double; the two tools build the same list exactly when
  that changes nothing, as below 2^56 (`TdHobNumbers.SameListExactly`, `TdHobNumbers.LowEndExact`;
  `TdHobNumbers.EndRounded`).
- A CCEL log whose specification event is not consumed to its declared size, or whose last event is cut off, does not
  re-encode to a prefix of itself (`CcelLog.LogPacks`; `CcelLog.UnconsumedLog`, `CcelLog.CutOffLog`).
- A record with booleans comes back from its packed bytes only when they agree with the bytes that cover them
  (`Schema.UnpackPack`; `Schema.DisagreeingFlag`).
- A hash table with room for no entry counts as present and verifies every blob (`BlobVerifier.EmptyTableVerifiesAll`); the
  statements about served files therefore ask for a table that holds anything.
- A fw_cfg item marked for measurement is served unmeasured on a TD when the directory lists an unmarked file with its
  selector (`FwCfgMeasured.MarkedStatic`; `FwCfgConflicts.SignatureUnmeasured`).
- Of two listed files with one selector, the first one with data is served, while each marked one is measured as it was read
  itself; so what is measured for the second need not be what is served (`FwCfgMeasured.MarkedFile`;
  `FwCfgConflicts.MeasuredNotServed`).
- A directory that lists its own selector for a file of the cache table makes resolving start over inside itself, until room
  runs out or a nested step fails; then the processor stops. No select of it succeeds, and every select that does succeed
  stores the directory exactly once (`FwCfgDirectory.AliasStops`, `FwCfgDirectory.DirectoryCachedOnce`;
  `FwCfgConflicts.AliasOffered`).
- When installing the initrd protocol fails, the loader takes the file system down and returns the status of doing so, which
  is a success with nothing served (`QemuLoader.Loader.QemuLoaderEntrypoint`).

## Model

| member | source | states |
|---|---|---|
| `Bytes.UnLeLe` | tools/tdx-measure/_library.py:37-46 | reading a little-endian integer undoes writing it, for every width and every value that fits |
| `Bytes.LeUnLe` | tools/tdx-measure/_library.py:37-46 | writing an integer that was read gives the bytes back |
| `Bytes.Store` | tools/measure-browser/static/binutil.js:42-83 | a write into a buffer succeeds exactly when it fits, replaces just its bytes, and otherwise changes nothing |
| `Bytes.Join` | tools/measure-browser/static/types.js:527-538 | the copying loop every packer ends with yields the concatenation of its parts |
| `Schema.PackUnpack` | tools/measure-browser/static/binutil.js:30-147 | for every nested schema whose booleans are covered by later bytes, and every buffer of at least its size, unpack succeeds and pack gives back exactly the bytes the schema covers |
| `Schema.UnpackPack` | tools/measure-browser/static/binutil.js:30-147 | unpacking a packed record, whatever follows it, gives the record back if and only if each of its booleans equals its bit of the byte behind it |
| `Schema.DisagreeingFlag` | tools/measure-browser/static/binutil.js:42-134 | a concrete record that does not come back: a flag set over a zero byte |
| `Schema.UnpackPackBooleanFree` | tools/measure-browser/static/binutil.js:30-147 | records of schemas without booleans always come back from their packed bytes |
| `Schema.PackIsEncode` | tools/measure-browser/static/binutil.js:42-83 | packing into one zeroed buffer, with zero-width fields overwritten by later ones, is laying the fields end to end |
| `Schema.UnpackNeedsSize` | tools/measure-browser/static/binutil.js:88-134 | a schema that ends with a field of its own bytes refuses every buffer shorter than its size |
| `Schema.UnpackTyped` | tools/measure-browser/static/binutil.js:88-134 | for every schema without custom fields, booleans and nested records included, unpack of a large enough buffer yields a record of the schema with every field set to a value the schema admits |
| `Schema.FieldIs` | tools/measure-browser/static/binutil.js:88-134 | every field of an unpacked record holds what is read at its offset by its kind, custom fields and the signing-key hook included |
| `Schema.UnpackLocal` | tools/measure-browser/static/binutil.js:88-134 | buffers that agree on the bytes of a schema unpack to the same fields, except that a custom field keeps a view of the whole buffer; so to the same record exactly when no field keeps a view or the buffers are the same |
| `Schema.BlockValue` | tools/measure-browser/static/binutil.js:88-134 | a sized byte block of an unpacked record holds exactly the bytes at its offset |
| `Schema.Record.Set` | tools/measure-browser/static/binutil.js:3-40 | a set either stores a safe value under the first field of that name and nothing else, or fails and changes nothing |
| `Schema.Record.PackSelf` | tools/measure-browser/static/binutil.js:42-83 | packing a record object yields the packed bytes of its current value |
| `Schema.Record.UnpackNew` | tools/measure-browser/static/binutil.js:88-134 | the reading loop fills the fields one after another into the record unpack specifies |
| `FieldPlaces.FieldHolds` | tools/measure-browser/static/binutil.js:88-134 | every field of an unpacked record by the bytes at its place: numbers little-endian, blocks, nested records, and each flag as the bit of its index |
| `FieldPlaces.BitIs` | tools/measure-browser/static/binutil.js:144-146 | which bit of a byte a flag of each index is; there is no bit 8 |
| `FieldPlaces.SetIs` | tools/measure-browser/static/binutil.js:3-40 | which values a set accepts for a field of each kind |
| `SnpReport.SnpAttestationTable` | tools/measure-browser/static/types.js:302-341 | the attestation report class is 1184 bytes long and each of its booleans is covered by later bytes |
| `SnpReport.ReportRoundTrip` | tools/measure-browser/static/types.js:302-341 | every report of at least 1184 bytes is accepted, packs back to its first 1184 bytes (the check the page makes on each loaded report), and keeps for the signature check the packed bytes before the signature |
| `ReportFields.ReportSays` | tools/measure-browser/static/types.js:302-341 | all thirty fields of a report by the bytes they are read from |
| `ReportFields.PolicyFlags` | tools/measure-browser/static/types.js:255-271 | which bit of the third policy byte each flag is; the last two, with indices 8 and 9, read as false |
| `ReportFields.PlatformFlags` | tools/measure-browser/static/types.js:273-285 | which bit of its first byte each platform flag is |
| `ReportFields.ReportFlagBits` | tools/measure-browser/static/types.js:287-300 | which bits the two report flags are, and that the bits above them name the signing key |
| `SnpReport.SignedFieldsAgree` | tools/measure-browser/static/types.js:302-341 | two reports whose signed bytes are the same report the same measurement and the same every other field except the signature |
| `TdxQuote.QuotePacks` | tools/measure-browser/static/types.js:444-539 | whenever a quote is accepted, packing it gives a prefix of the data, and the bytes kept for the signature check are its packed header, optional descriptor and body |
| `TdxQuote.QuoteRoundTrip` | tools/measure-browser/static/index.js:187-189 | with the field tables of the source, the page's check that a loaded quote re-encodes to itself cannot fail |
| `QuotePlaces.QuoteIs` | tools/measure-browser/static/types.js:446-507 | behind a body that lies where the version, type and size say, a quote is accepted exactly when signature and certification data lie in it whole, and which bytes its parts are |
| `QuotePlaces.SignedIs` | tools/measure-browser/static/types.js:446-477 | the body lies behind the header in version 4, and behind a descriptor of type 2 and size 584 or type 3 and size 648 in version 5 |
| `QuotePlaces.QuoteSays` | tools/measure-browser/static/types.js:446-477 | nothing without such a body is accepted |
| `QuotePlaces.BodySays` | tools/measure-browser/static/types.js:362-388 | every field of a body by the bytes it is read from |
| `TdxQuote.SignedDetermines` | tools/measure-browser/static/types.js:446-477 | equal signed bytes imply equal header, descriptor and body, so equal reported measurements |
| `TdxQuote.BodyBlockIsSigned` | tools/measure-browser/static/types.js:362-388 | every byte block of the body is reported as exactly the signed bytes at its place |
| `TdxQuote.MrTdIsSigned` | tools/measure-browser/static/types.js:362-380 | the mr_td value the page compares is the 48 signed bytes 136 bytes into the body |
| `TdxQuote.UnpackPackedQuote` | tools/measure-browser/static/types.js:444-539 | a well-formed quote of either version and certification type packs, and unpacking the bytes gives the quote back whatever follows |
| `TdxQuote.QuoteUnpackPack` | tools/measure-browser/static/types.js:444-539 | the same for the field tables of the source |
| `TdxQuote.QuoteClassesAreSolid` | tools/measure-browser/static/types.js:343-442 | all eleven record classes of a quote have the widths and the unique names the round trips need |
| `TdxQuote.UnpackObject` | tools/measure-browser/static/types.js:446-507 | the assignments with their advancing offset produce the quote that the specification describes, or fail where it does |
| `TdxQuote.PackObject` | tools/measure-browser/static/types.js:509-538 | the filtered parts copied into one buffer are the packed quote |
| `CcelLog.LogPacks` | tools/measure-browser/static/types.js:616-739 | unpacking a log and packing it gives a prefix of the data if and only if the specification event is consumed to its declared size and no event was cut off; packing then leaves the log as it was |
| `CcelLog.UnconsumedLog` | tools/measure-browser/static/types.js:616-739 | a concrete log whose specification event ends one byte early and that does not pack to a prefix of itself |
| `CcelLog.CutOffLog` | tools/measure-browser/static/types.js:616-739 | a concrete log whose last event is cut off and that does not pack to a prefix of itself |
| `LogPlaces.LogIs` | tools/measure-browser/static/types.js:619-650 | a log is read exactly when its specification event is there and its events are read, and which bytes its parts are |
| `LogPlaces.EventsAre` | tools/measure-browser/static/types.js:651-687 | events that lie one behind the other, each spelled field by field, are read as those events |
| `LogPlaces.EventsLie` | tools/measure-browser/static/types.js:651-687 | whatever events are read lie so |
| `LogPlaces.SizesAre` | tools/measure-browser/static/types.js:636-641 | the digest size of an algorithm is that of its last entry |
| `CcelLog.UnpackPackedLog` | tools/measure-browser/static/types.js:616-739 | a log with known event types and registered digest sizes packs, and unpacking the bytes, alone or with a terminator of at least 12 bytes behind them, gives the log back |
| `CcelLog.EventPacks` | tools/measure-browser/static/types.js:651-687 | an event packs to the bytes it was read from exactly when its declared data is all there |
| `CcelLog.SpecPacks` | tools/measure-browser/static/types.js:626-649 | the specification event packs to its declared bytes exactly when it is consumed to its declared size |
| `CcelLog.CcelEventLog.UnpackNew` | tools/measure-browser/static/types.js:619-689 | the loops over algorithms, events and digests build the log the specification describes, or fail where it does |
| `CcelLog.CcelEventLog.PackSelf` | tools/measure-browser/static/types.js:691-738 | packing returns the packed bytes and corrects the size in the header of the specification event |
| `GuidText.EncodeDecode` | tools/tdx-measure/_library.py:16-34 | encoding the text of a raw GUID gives the GUID back |
| `GuidText.DecodeInjective` | tools/tdx-measure/_library.py:27-34 | different raw GUIDs have different texts |
| `GuidText.EncodeGuidLoop` | tools/tdx-measure/_library.py:16-24 | the loop over the groups, the first three reversed, computes the encoding or fails on a malformed text; white space between bytes is skipped |
| `GuidTable.WalksAgree` | tools/tdx-measure/mrtd.py:40-65 | on every image with any list of entries of which exactly one is for the metadata offset, all three walks find that offset; the walk that keeps a whole dictionary does so exactly when the 18 bytes in front of the table do not spell an empty entry for it |
| `GuidTable.SpelledReadsZero` | tools/tdx-measure/rtmr0.py:24-57 | a concrete image in front of whose table an empty entry is spelled: rtmr0.py reads 0 where the other two read 1 |
| `GuidTable.MrtdWalk` | tools/tdx-measure/mrtd.py:40-65 | the walk with 18 bytes too many in front of the entry still ends at the last four bytes of its data |
| `GuidTable.RtmrWalk` | tools/tdx-measure/rtmr0.py:24-57 | the dictionary walk over 18 bytes too many finds the offset, or zero when those bytes spell an empty entry for it |
| `GuidTable.JsWalk` | tools/measure-browser/static/measure.js:348-371 | the walk by negative slice bounds finds the offset |
| `GuidTable.FindEntryLoop` | tools/tdx-measure/mrtd.py:50-62 | the backward loop terminates with the entry the recursive specification finds, or fails where it does |
| `GuidTable.ParseTableLoop` | tools/tdx-measure/rtmr0.py:39-48 | the backward loop terminates with the dictionary of the specification |
| `GuidTable.WalkTableLoop` | tools/measure-browser/static/measure.js:361-371 | the shrinking-slice loop terminates with the table of the specification, or fails on a short entry |
| `GuidTable.FindOffsetMrtd` | tools/tdx-measure/mrtd.py:40-65 | footer check, table slice, backward loop and the four bytes read give the offset of the specification, or fail where it does |
| `GuidTable.FindOffsetRtmr` | tools/tdx-measure/rtmr0.py:24-57 | the same with the dictionary loop |
| `GuidTable.FindOffsetJs` | tools/measure-browser/static/measure.js:348-395 | the same with the shrinking-slice loop |
| `Tdvf.ParsersAgree` | tools/tdx-measure/rtmr0.py:51-87 | where the browser reads a section table, each Python parser reads the same one or refuses it, exactly for the misalignments and sizes it checks |
| `TdvfBytes.BrowserReads` | tools/measure-browser/static/measure.js:418-438 | the browser reads exactly the sections that the bytes at the metadata offset spell, field by field, and throws when they spell none |
| `TdvfBytes.PythonReads` | tools/tdx-measure/rtmr0.py:51-87 | which of these sections the Python parsers refuse: misaligned addresses or sizes, more contents than memory, and for mrtd.py measured memory beyond the image |
| `Tdvf.SectionsAgree` | tools/tdx-measure/mrtd.py:72-86 | the same for the sections behind any descriptor, from any index on |
| `Tdvf.RtmrSectionsLoop` | tools/tdx-measure/rtmr0.py:67-87 | the loop collects the sections of the specification or refuses where it does |
| `Tdvf.MrtdSectionsLoop` | tools/tdx-measure/mrtd.py:73-86 | the loop collects the sections of the specification or refuses where it does |
| `Tdvf.JsSectionsLoop` | tools/measure-browser/static/measure.js:426-438 | the loop collects the sections of the specification or throws where it does |
| `Tdvf.ParseSectionsRtmr` | tools/tdx-measure/rtmr0.py:51-87 | from the image to its sections, with the loops over table and sections |
| `Tdvf.ParseSectionsMrtd` | tools/tdx-measure/mrtd.py:37-86 | the same for mrtd.py |
| `Tdvf.ParseSectionsJs` | tools/measure-browser/static/measure.js:397-438 | the same for the browser, the 64-bit fields read into doubles |
| `Sorting.SortIs` | tools/tdx-measure/rtmr0.py:109 | whatever order elements with different keys come in, the sort yields their one ascending arrangement |
| `Sorting.SortKeeps` | tools/tdx-measure/rtmr0.py:109 | sorting keeps every element as often as it occurs |
| `Doubles.GridIsDouble` | tools/measure-browser/static/measure.js:426-438 | of JavaScript numbers, every multiple of a power of two with a factor below 2^53 is exact; all others are rounded to the nearest, ties to even |
| `Doubles.DoubleIs` | tools/measure-browser/static/measure.js:426-438 | an integer of 53 + k bits becomes the nearest multiple of 2 to the power k, the even one of two that are equally near |
| `Doubles.PagesAreDoubles` | tools/measure-browser/static/measure.js:426-438 | page addresses and their differences below 2^65 are not rounded |
| `Acceptor.MemoryAcceptor.constructor` | tools/tdx-measure/rtmr0.py:93-94 | a new acceptor holds one unaccepted range, the whole memory |
| `Acceptor.MemoryAcceptor.AcceptRange` | tools/tdx-measure/rtmr0.py:96-110 | accepting replaces the ranges by the sorted cut ranges and the accepted one; an empty interval changes nothing |
| `Acceptor.UnacceptedExactly` | tools/tdx-measure/rtmr0.py:90-110 | after any sequence of accepts, an address lies in an unaccepted range exactly when it is guest memory and in no accepted interval, and in an accepted range exactly when some interval has it |
| `Acceptor.RangesPartition` | tools/tdx-measure/rtmr0.py:90-110 | disjoint intervals inside the memory leave non-empty ranges in ascending order that partition it |
| `Acceptor.AcceptedAreTaken` | tools/tdx-measure/rtmr0.py:90-110 | an accepted range is never cut: it is one of the accepted intervals |
| `Acceptor.TakenAreAccepted` | tools/tdx-measure/rtmr0.py:90-110 | every non-empty interval is one accepted range, whole |
| `Acceptor.GapsAreWhole` | tools/tdx-measure/rtmr0.py:90-110 | no two unaccepted ranges meet: each gap between disjoint intervals is one range |
| `TdHob.MeasureTdHob` | tools/tdx-measure/rtmr0.py:113-162 | the Python builder yields the hand-off block list of the sections and the memory, and fails exactly when an address or a length does not fit 64 bits |
| `TdHob.TdxMeasureHob` | tools/measure-browser/static/measure.js:240-302 | the browser's builder, its numbers rounded to doubles as they are added, yields the list of the specification, values cut to 64 bits |
| `TdHob.AddMemoryResourceHob` | tools/tdx-measure/rtmr0.py:137-146 | one resource block is appended byte for byte as the specification lays it out, or the call fails on a value beyond 64 bits |
| `TdHobLayout.HobListWalks` | tools/tdx-measure/rtmr0.py:125-160 | walking the list by its length fields recovers the hand-off block and every resource in order, and the announced end lies exactly 8 bytes behind the last byte |
| `TdHobBytes.ListIs` | tools/tdx-measure/rtmr0.py:125-160 | the list byte for byte: the hand-off block, whose end lies eight bytes behind the list, and 48 bytes for each resource |
| `TdHobBytes.ResourcesAre` | tools/tdx-measure/rtmr0.py:148-157 | which resource each range becomes, and how the last one is split |
| `TdHobBytes.TakenIs` | tools/tdx-measure/rtmr0.py:119-121 | accepted are exactly the addresses of the sections of types 2 and 3 |
| `TdHobBytes.BaseIs` | tools/tdx-measure/rtmr0.py:118-123 | the list lies at the last section of type 2, and at 0x809000 without one |
| `TdHobLayout.HobListInjective` | tools/tdx-measure/rtmr0.py:113-162 | two lists with the same bytes have the same base and the same resources |
| `TdHobLayout.MemoryConserved` | tools/tdx-measure/rtmr0.py:148-157 | for every memory size and disjoint sections inside it, the resource lengths add up to the memory size |
| `TdHobLayout.PhysicalImage` | tools/tdx-measure/rtmr0.py:148-157 | a guest address is reported, at itself or from 2 GiB up at 2 GiB above in a memory of at least 0xB0000000, exactly when it is guest memory; as accepted exactly when a section accepted it and it lies below the last range; in disjoint ascending resources |
| `TdHobLayout.PhysicalInverse` | tools/tdx-measure/rtmr0.py:148-157 | every reported physical address belongs to exactly one guest address |
| `TdHobLayout.PyBuildsExactly` | tools/tdx-measure/rtmr0.py:113-162 | for disjoint sections inside a memory of 64 bits, the Python tool builds the list exactly unless the last range of a large memory starts above 2 GiB or the list ends beyond 64 bits |
| `TdHobLayout.SplitBehindTwoGiB` | tools/tdx-measure/rtmr0.py:148-157 | a concrete section table for which the Python tool fails: TEMP_MEM right behind 2 GiB in a memory of 0xB0000000 |
| `TdHobNumbers.OnlyEndRounded` | tools/measure-browser/static/measure.js:240-302 | for aligned sections and a memory size with a unit, the browser rounds nothing in its list but the announced end |
| `TdHobNumbers.SameListExactly` | tools/measure-browser/static/measure.js:240-302 | where the Python tool builds a list, the browser builds the same bytes if and only if the end of the list is not changed by rounding |
| `TdHobNumbers.LowEndExact` | tools/measure-browser/static/measure.js:290-298 | a list that ends below 2^56 is not rounded |
| `TdHobNumbers.EndRounded` | tools/measure-browser/static/measure.js:290-298 | a concrete section table, its list at 2^60, for which the two tools build different bytes |
| `Hashing.EqualChains` | tools/tdx-measure/rtmr0.py:208-221 | equally many events that extend to the same register are the same events from the same start, or the two chains exhibit a collision |
| `Hashing.ExtendedConcat` | tools/tdx-measure/rtmr0.py:208-221 | extending by two lists in turn is extending by their concatenation |
| `Rtmr0.EfiVariable` | tools/measure-browser/static/binutil.js:180-200 | the preallocated buffer ends up as GUID, name length in UTF-16 units, data length, UTF-16 name and data, surrogate pairs included, which is what the Python concatenation gives |
| `Rtmr0.VariableInjective` | tools/tdx-measure/rtmr0.py:188-193 | different variables are measured as different bytes |
| `Rtmr0.MeasureCfv` | tools/tdx-measure/rtmr0.py:165-174 | the loop measures the first configuration volume and fails without one or when it lies beyond the image |
| `Rtmr0.CfvIs` | tools/measure-browser/static/measure.js:299-303 | the volume is the image contents of the first section of type 1, which has to lie inside the image for rtmr0.py and is cut to it by measure.js |
| `Rtmr0.PyMain` | tools/tdx-measure/rtmr0.py:196-221 | the Python program, from the walk over the image's table on, measures exactly its hand-off blocks, its volume, "QEMU", 03000000, SecureBoot = 00, PK, KEK, db, dbx and four zero bytes, in that order and with each event byte by byte, or fails where the specification does |
| `Rtmr0.JsMain` | tools/measure-browser/static/measure.js:240-325 | the browser's chain, from the image on, measures the same ten events with its own blocks and volume |
| `Rtmr0.MeasuredIs` | tools/tdx-measure/rtmr0.py:205-221 | a register that measured nothing is zero, and one part more makes it the hash of the register and the digest of the part |
| `Rtmr0.VariableIs` | tools/tdx-measure/rtmr0.py:188-193 | the bytes of a variable with a name of one-byte characters: GUID, name length and data length in eight bytes, the name with a zero behind each byte, the data |
| `Rtmr0.UnitsSpelled` | tools/measure-browser/static/binutil.js:180-200 | a character is one UTF-16 unit or the surrogate pair that spells it |
| `Rtmr0.SameRegisterExactly` | tools/measure-browser/static/measure.js:240-325 | for every well-formed image the browser predicts a register for and every memory size with a unit, the Python tool refuses exactly for a misaligned section, a volume beyond the image or a list it cannot build; otherwise both registers are the same if the end of the list is not rounded away, and measured over different bytes if it is |
| `Rtmr0.PredictionsAgree` | tools/tdx-measure/rtmr0.py:90-222 | with disjoint sections inside the memory and a list that ends below 2^56, the Python tool predicts the browser's register or refuses, exactly for a misaligned section, a volume beyond the image or a large memory whose last range starts above 2 GiB |
| `Rtmr0.RegisterDetermines` | tools/tdx-measure/rtmr0.py:196-221 | equal registers imply equal hand-off bytes and equal volumes, or one of three given pairs of inputs collides |
| `Rtmr0.RegisterPinsMemory` | tools/tdx-measure/rtmr0.py:90-221 | images and memory sizes with one register have the same volume, the same place of the list, the same resources and, with disjoint sections, the same memory size, or one of three given pairs of inputs collides |
| `Mrtd.ComputeMrtd` | tools/tdx-measure/mrtd.py:89-114 | the nested loops feed the hash exactly the stream of page-add and extend records of the sections, and fail exactly on an address beyond 64 bits |
| `Mrtd.OvmfMeasureTdx` | tools/measure-browser/static/measure.js:440-476 | from the image on, the browser's chunks join to the stream of its operations |
| `Mrtd.CollectStream` | tools/measure-browser/static/measure.js:440-476 | the nested loops collect the page and chunk records of the sections, addresses rounded as the page number is added to the section's |
| `Mrtd.MrtdMain` | tools/tdx-measure/mrtd.py:37-114 | from the image on, mrtd.py hashes the stream of the specification or fails where it does |
| `Mrtd.BuildRecord` | tools/tdx-measure/mrtd.py:97-107 | a record holds the operation's name in front, the address in bytes 16 to 24, and zeros |
| `Mrtd.DecodeStream` | tools/tdx-measure/mrtd.py:89-114 | a decoder recovers from the stream the exact sequence of operations with addresses and 256-byte contents |
| `MrtdBytes.StreamIs` | tools/tdx-measure/mrtd.py:89-114 | the stream of both tools byte for byte: page by page, a record MEM.PAGE.ADD for attributes 0 and 1 (modulo 4) and sixteen records MR.EXTEND with 256 bytes of the image each for attributes 1 and 3, nothing for 2 |
| `Mrtd.StreamsAgree` | tools/measure-browser/static/measure.js:440-476 | for aligned sections with fields of 64 bits, no address is rounded, both tools hash the same stream, and mrtd.py fails exactly for an address beyond 64 bits |
| `Mrtd.MeasurementsAgree` | tools/tdx-measure/mrtd.py:37-114 | for every well-formed image the browser measures, mrtd.py hashes the same stream or refuses, exactly for a misaligned section, measured contents beyond the image or an address beyond 64 bits |
| `Mrtd.MrtdDetermines` | tools/tdx-measure/mrtd.py:89-114 | equal measurements imply equal sequences of operations, or the two streams collide |
| `Mrtd.MeasuredContents` | tools/tdx-measure/mrtd.py:103-112 | the contents extended for a measured section concatenate to its bytes of the image |
| `Mrtd.SectionAddresses` | tools/tdx-measure/mrtd.py:93-112 | a section adds each of its pages, unless augmented, and extends each 256 bytes of it, if measured, in ascending order |
| `Authenticode.AuthenticodeOf` | tools/measure-browser/static/binutil.js:208-266 | the header reads, section loop, sort and copying loop yield the covered bytes, or fail on a malformed image |
| `Authenticode.CollectChunks` | tools/measure-browser/static/binutil.js:232-266 | the chunks join to headers without checksum and directory, sections by file offset, and what lies behind them |
| `PeImage.ImageCovered` | tools/measure-browser/static/binutil.js:208-266 | for an image given by its bytes, with sections that tile the file in any header order, the covered bytes are the file up to its certificate address without the checksum at 88 and the security directory, at 168 for magic 0x020B and at 152 otherwise, behind the offset of its headers; the certificate address is the number in that directory |
| `PeImage.LayoutIs` | tools/measure-browser/static/binutil.js:208-231 | what is read of an image is what its bytes say, field by field |
| `PeImage.CoveredSays` | tools/measure-browser/static/binutil.js:208-231 | whatever has covered bytes is an image whose bytes say so |
| `Authenticode.SignedAlikeExactly` | tools/measure-browser/static/binutil.js:208-266 | two tiled images are covered by the same bytes exactly when they agree up to their certificate tables outside checksum and directory |
| `Authenticode.SigningKeeps` | tools/measure-browser/static/binutil.js:208-266 | changing checksum and directory and continuing the file leaves the covered bytes alone as long as their end stays, if no size or pointer field of the section table lies in what is changed |
| `Authenticode.SigningInvariant` | tools/measure-browser/static/binutil.js:208-266 | under the same condition, setting the checksum, filling the directory and appending any certificate leaves the covered bytes alone |
| `LaunchDigest.GCTX.UpdatePage` | tools/measure-browser/static/measure.js:36-61 | the digest becomes the hash of the 112-byte PAGE_INFO record behind the old one; contents that are no digest are refused with nothing changed |
| `LaunchDigest.GCTX.UpdateNormalPages` | tools/measure-browser/static/measure.js:62-68 | adds every 4096-byte page of the data at its own address, or refuses data that is no number of pages |
| `LaunchDigest.GCTX.UpdateZeroPages` | tools/measure-browser/static/measure.js:73-78 | adds one zero page for each 4096 bytes, or refuses the length |
| `LaunchDigest.UpdateSplits` | tools/measure-browser/static/measure.js:62-68 | updating with a ++ b split at a page boundary is updating with a and then with b at the shifted address |
| `LaunchDigest.PageInfoInjective` | tools/measure-browser/static/measure.js:36-61 | the record determines the old digest, the page type, the address and the contents |
| `LaunchDigest.DigestDetermines` | tools/measure-browser/static/measure.js:29-88 | equal digests of equally many updates imply equal starts, types, addresses and contents, or two records collide |
| `LaunchDigest.PagesDetermine` | tools/measure-browser/static/measure.js:62-68 | images whose page updates are equal are equal, or two of their pages collide |
| `SnpMeasure.MeasureSnp` | tools/measure-browser/static/measure.js:183-219 | the sections and then one save area for each processor are folded into the firmware's digest, as the records below say; an unknown section type or a bad size fails |
| `SnpRecords.OneSection` | tools/measure-browser/static/measure.js:196-210 | what a section of each type adds, as hashes of spelled-out 112-byte records: type 3 for each page for types 1 and 4, one of type 5 for 2, of type 6 for 3, of type 1 with the hash of the page for 0x10; anything else is refused |
| `SnpRecords.SectionsFold` | tools/measure-browser/static/measure.js:195-210 | the digest of one section more is that of it alone on top of the digest of those before it |
| `SnpRecords.ProcessorsFold` | tools/measure-browser/static/measure.js:212-216 | each processor adds a record of type 2 at the fixed address with the hash of its save area, the first one that of the boot processor |
| `SnpMeasure.LaunchPinsHashes` | tools/measure-browser/static/measure.js:183-219 | guests with the same sections and as many processors but any firmware digests, save areas and hashes: equal launch digests mean equal firmware digests, equal hashes of kernel, initrd and command line and equal save areas, or two hash pages, two save areas or two records collide |
| `BlobVerifier.Verifier.constructor` | SylicaOss/Library/BlobVerifier/BlobVerifier.c:152-174 | a table is found exactly when its GUID matches and its length fits between its header and the window |
| `BlobVerifier.Verifier.VerifyBlob` | SylicaOss/Library/BlobVerifier/BlobVerifier.c:91-143 | the pointer walk terminates, never lets what remains go negative, and returns the verdict of the first entry of the blob's name; success without a table |
| `BlobVerifier.CheckEntry` | SylicaOss/Library/BlobVerifier/BlobVerifier.c:119-138 | an entry vouches for a blob exactly when its data is 32 bytes long and is the blob's hash |
| `BlobVerifier.SuccessMeans` | SylicaOss/Library/BlobVerifier/BlobVerifier.c:91-143 | success against a table that holds anything means one of three names and the very hash of the first entry of that name |
| `HashTableBytes.VerdictIs` | SylicaOss/Library/BlobVerifier/BlobVerifier.c:91-143 | over the entries spelled by the table's bytes, a blob passes exactly when its name is one of the three and the first entry with the GUID of that name has 32 bytes, the SHA-256 of the blob |
| `HashTableBytes.TableIs` | SylicaOss/Library/BlobVerifier/BlobVerifier.c:152-174 | where a table is found, by the bytes of its head |
| `HashTableBytes.EveryTable` | SylicaOss/Library/BlobVerifier/BlobVerifier.c:108-112 | every memory spells such entries |
| `BlobVerifier.VerdictLocal` | SylicaOss/Library/BlobVerifier/BlobVerifier.c:91-143 | neither finding the table nor any verdict depends on memory outside it |
| `BlobVerifier.EntriesLocal` | SylicaOss/Library/BlobVerifier/BlobVerifier.c:108-112 | the entries the walk visits depend on the bytes that remain alone |
| `BlobVerifier.EmptyTableVerifiesAll` | SylicaOss/Library/BlobVerifier/BlobVerifier.c:152-174 | a table of 18 bytes counts as present and verifies every blob |
| `SevHashes.Page` | tools/measure-browser/static/measure.js:101-114 | the page holds the table at the offset of its address, or the call fails when it does not fit |
| `SevHashes.ConstructTableIs` | tools/measure-browser/static/measure.js:115-137 | for 32-byte hashes the packed table is its GUID, length 168, the three entries of 50 bytes and 8 bytes of padding |
| `SevHashes.PageSpelled` | tools/measure-browser/static/measure.js:101-137 | the page byte for byte: zeros but for head and length, and the entries of the command line, the initrd and the kernel |
| `SevHashes.PageVerifies` | SylicaOss/Library/BlobVerifier/BlobVerifier.c:91-174 | with that page in memory at any offset that fits, the verifier finds the table, and a blob passes exactly when its name is one of the three and its SHA-256 the hash given for it |
| `QemuLoader.Loader.ReadSizes` | SylicaOss/Driver/QemuLoader/QemuLoader.c:576-584 | the device is asked for exactly the size keys of the table in order, and each such item gets the size it gives |
| `QemuLoader.Loader.LookupNamedBlobs` | SylicaOss/Driver/QemuLoader/QemuLoader.c:488-529 | the directory is read in one piece behind its count and its named entries are applied in order; a count above 32 or no memory changes nothing |
| `QemuLoader.Loader.FetchBlob` | SylicaOss/Driver/QemuLoader/QemuLoader.c:531-560 | a blob is read in full right behind the select of its key in pieces of at most a megabyte; no other item changes |
| `QemuLoader.Loader.FetchChunks` | SylicaOss/Driver/QemuLoader/QemuLoader.c:546-557 | the chunk loop fills the buffer with consecutive answers of the device |
| `QemuLoader.Loader.TakeItem` | SylicaOss/Driver/QemuLoader/QemuLoader.c:594-615 | an item that is taken holds the blob read behind the select of its key, passed the verifier, and is counted exactly when it is not empty; access is denied exactly to what did not pass |
| `QemuLoader.Loader.QemuLoaderEntrypoint` | SylicaOss/Driver/QemuLoader/QemuLoader.c:562-662 | files are served only after success, and then sizes and selectors are those discovered, the device was asked first for them in order, every blob was read in full behind the select of its key and verified, the number of fetched items is that of the non-empty ones and the total is the sum of their sizes; the initrd is served exactly when it is not empty |
| `LoaderDirectory.DiscoveredIs` | SylicaOss/Driver/QemuLoader/QemuLoader.c:481-529 | for every device, by the bytes it answers: each of the five items starts with the size and the selector, big-endian, of the last directory entry named "etc/boot/" and its name; without one, the initrd and the command line keep their little-endian answered sizes and fixed selectors, and the others have no blob |
| `LoaderDirectory.EveryDeviceAnswers` | SylicaOss/Driver/QemuLoader/QemuLoader.c:488-508 | whatever the device says spells two sizes, a count and that many files, so the statement speaks of every device |
| `LoaderDirectory.DiscoveryAsks` | SylicaOss/Driver/QemuLoader/QemuLoader.c:488-584 | the device is asked for keys 0x0b, 0x14 and 0x19 in that order, with reads of 4, 4, 4 and 64 bytes for each entry |
| `LoaderDirectory.ChunksAre` | SylicaOss/Driver/QemuLoader/QemuLoader.c:546-557 | a blob of any size is read in megabytes one behind the other and a last piece of what is left |
| `LoaderDirectory.NonEmptyExactly` | SylicaOss/Driver/QemuLoader/QemuLoader.c:232-238 | what a directory read counts are exactly the items of a size, in ascending order |
| `StubFiles.StubFile.OpenFile` | SylicaOss/Driver/QemuLoader/QemuLoader.c:158-195 | a new handle at position 0 is for the first item whose name is the path, or the path behind one backslash; everything else is refused |
| `StubFiles.OpenServes` | SylicaOss/Driver/QemuLoader/QemuLoader.c:158-195 | opening a name, alone or behind one backslash, from the root for reading succeeds, and the reads through the new handle concatenate to the blob of the first item of that name |
| `StubFiles.OpenDecides` | SylicaOss/Driver/QemuLoader/QemuLoader.c:158-195 | the status of every open: a writing or creating mode, another mode, a handle that is not the root, and a path to no item are refused in that order, and nothing else is |
| `StubFiles.StubFile.ReadFile` | SylicaOss/Driver/QemuLoader/QemuLoader.c:215-266 | a read gives the next directory entry or the bytes from the position on, moves the position by what it gave, and fails beyond the end |
| `StubFiles.StubFile.FindFetched` | SylicaOss/Driver/QemuLoader/QemuLoader.c:232-238 | the search stops inside the table, at the non-empty item of the position |
| `StubFiles.StubFile.Seek` | SylicaOss/Driver/QemuLoader/QemuLoader.c:291-311 | a file seeks anywhere, to its end for the largest position; a directory only back to its start |
| `StubFiles.ReadsConcatenate` | SylicaOss/Driver/QemuLoader/QemuLoader.c:249-266 | reads from the start of a file concatenate to its blob, cut at what was asked for |
| `StubFiles.TellCounts` | SylicaOss/Driver/QemuLoader/QemuLoader.c:249-289 | the told position has moved by exactly the bytes that reads gave |
| `StubFiles.TellResumes` | SylicaOss/Driver/QemuLoader/QemuLoader.c:277-311 | seeking back to a told position, after a detour anywhere, resumes the reads as if there had been no detour; seeking to the largest number and telling gives the size |
| `StubFiles.ListsInOrder` | SylicaOss/Driver/QemuLoader/QemuLoader.c:220-247 | directory reads with any buffer sizes return the non-empty items in table order, each once, none skipped by a small buffer, nothing beyond the last |
| `StubFiles.ListsAll` | SylicaOss/Driver/QemuLoader/QemuLoader.c:220-247 | with large enough buffers the whole directory is listed |
| `StubFiles.RootReads` | SylicaOss/Driver/QemuLoader/QemuLoader.c:120-153 | a directory read gives name and size of the next non-empty item as a file, or the size of the buffer it needs |
| `StubFiles.InitrdWhole` | SylicaOss/Driver/QemuLoader/QemuLoader.c:431-470 | the initrd protocol gives the whole blob of the item "initrd" or refuses, for the listed reasons |
| `StubFiles.RunServes` | SylicaOss/Driver/QemuLoader/QemuLoader.c:158-475 | whatever any run of opens, seeks, reads and initrd loads copies out is a piece of one of the blobs |
| `BootChain.Boot` | SylicaOss/Driver/QemuLoader/QemuLoader.c:562-662 | from the constructor of the verifier through the entry point of the loader, whatever the device answers: if files are served and the table holds anything, every non-empty byte string any run copies out is a piece of a blob with one of the three names and the SHA-256 the table gives for it, what is read in full of a file opened as n has the SHA-256 the table gives for n, and files with other names are empty; if the memory holds the page of the launch hashes, these are the kernel, initrd and command line with those very hashes |
| `FwCfgLibrary.FwCfg.QemuFwCfgItemCached` | SylicaOss/Library/QemuFwCfg/Cache.c:20-42 | the walk finds the first block of the item that has data |
| `FwCfgLibrary.FwCfg.Select` | SylicaOss/Library/QemuFwCfg/Cache.c:64-98 | selecting does what its specification says, through every nested select; a failed caching stops the processor |
| `FwCfgLibrary.FwCfg.ReadCached` | SylicaOss/Library/QemuFwCfg/Cache.c:100-140 | a read gives the next piece of the cached item and moves the offset by it, or stops the processor |
| `FwCfgLibrary.FwCfg.CacheOne` | SylicaOss/Library/QemuFwCfg/CacheInit.c:179-240 | caching an item does what its specification says |
| `FwCfgLibrary.FwCfg.Resolve` | SylicaOss/Library/QemuFwCfg/CacheInit.c:143-177 | resolving does what its specification says, over all entries of the table |
| `FwCfgLibrary.FwCfg.CreateCache` | SylicaOss/Library/QemuFwCfg/CacheInit.c:94-118 | one block is appended, filled with the answer to one read behind the select of the item; it fails without room or when a block of that size is not granted |
| `FwCfgLibrary.FwCfg.MeasureCache` | SylicaOss/Library/QemuFwCfg/CacheInit.c:120-141 | on a TD exactly the bytes are measured under the name of the file |
| `FwCfgRuns.RunReadsSnapshot` | SylicaOss/Library/QemuFwCfg/Cache.c:65-140 | in any run, reads behind a successful select give consecutive pieces of one payload, the answer to the one device read behind the select of the item, within the bound and of the size of the very table entry it was made for, and on a TD measured under the name of that entry if marked; any later select leaves the device alone and serves the same payload |
| `FwCfgRuns.RunKeeps` | SylicaOss/Library/QemuFwCfg/CacheInit.c:179-240 | whatever is called, blocks are only added, and while the processor runs each was read once behind its own select and fits the very table entry it was made for, a directory is as long as its own count says, and the log is exactly the events of the blocks made for marked entries, in order |
| `FwCfgRuns.OneSnapshot` | SylicaOss/Library/QemuFwCfg/Cache.c:65-98 | once an item is cached no call changes its bytes, and selecting it succeeds without touching the device |
| `FwCfgRuns.ReadsAreSlices` | SylicaOss/Library/QemuFwCfg/Cache.c:100-140 | reads of any sizes give the payload piece by piece and touch only the work area; the processor stops exactly when a read starts behind the last byte |
| `FwCfgRuns.SelectCaches` | SylicaOss/Library/QemuFwCfg/Cache.c:65-98 | a successful select, nested ones included, ends at its own item and offset 0 with the item cached |
| `FwCfgRuns.ItemExtends` | SylicaOss/Library/QemuFwCfg/CacheInit.c:179-240 | caching an item adds blocks only, and unless it fails each added one was read once, fits the very entry it was made for and was logged as that entry asks, through any depth of nesting |
| `FwCfgDirectory.DirectoryCachedOnce` | SylicaOss/Library/QemuFwCfg/CacheInit.c:143-240 | every successful select of an uncached directory asks the device for it twice and never again, stores it once with 4 plus 64 times the count stored in it, and behind it makes exactly one block for each file of the table it lists, in order, none of which has the selector of the directory |
| `FwCfgDirectory.AliasNeverResolves` | SylicaOss/Library/QemuFwCfg/CacheInit.c:143-177 | behind a directory that lists its own selector for a file of the table, resolving never succeeds: caching that file resolves again with less room |
| `FwCfgDirectory.AliasStops` | SylicaOss/Library/QemuFwCfg/CacheInit.c:143-240 | selecting such a directory stops the processor, whatever the device answers afterwards |
| `FwCfgDirectory.DirectoryFills` | SylicaOss/Library/QemuFwCfg/CacheInit.c:143-240 | a device that offers a directory whose listed files have their fixed sizes, stay within their bounds and do not have the selector of the directory gets it cached, given room, with the files read one behind the other |
| `FwCfgDirectory.FindFileLooksUp` | SylicaOss/Library/QemuFwCfg/CacheInit.c:149-157 | while resolving, finding a file is looking it up in the directory just cached; nothing but the work area changes |
| `FwCfgHistory.RunHistory` | SylicaOss/Library/QemuFwCfg/CacheInit.c:143-240 | in every run that does not stop, the directory and each static item are cached at most once, and the blocks made with the directory are exactly those of the table files it lists, in order |
| `FwCfgMeasured.MarkedFile` | SylicaOss/Library/QemuFwCfg/CacheInit.c:120-240 | in every run that caches the directory, a listed file of the table has a block of its listed size, whose bytes are measured on a TD exactly once exactly if marked; its selector is served from that block exactly when nothing was cached for the selector before and no earlier file of the table claims it with data, and what is served is what was measured exactly then, or when the device gave the same bytes twice |
| `FwCfgMeasured.MarkedStatic` | SylicaOss/Library/QemuFwCfg/CacheInit.c:120-240 | after any run, a static item is served from a block of its own, measured on a TD under its name, exactly when it had one, or the directory is not cached yet, or none of its files claims the selector; otherwise it is never measured |
| `FwCfgConflicts.SignatureUnmeasured` | SylicaOss/Library/QemuFwCfg/CacheInit.c:143-177 | a concrete directory behind which the signature is served on a TD and nothing was measured |
| `FwCfgConflicts.MeasuredNotServed` | SylicaOss/Library/QemuFwCfg/CacheInit.c:143-177 | a concrete directory behind which one answer is measured for a marked file and another one is served |
| `FwCfgConflicts.AliasOffered` | SylicaOss/Library/QemuFwCfg/CacheInit.c:143-177 | a concrete directory with its own selector, which stops the processor |
| `FwCfgDirectory.ZeroSizeIsNotCached` | SylicaOss/Library/QemuFwCfg/Cache.c:28-42 | a file of size zero gets a block that counts as no cache, so selecting it is left to the device |
| `FwCfgDirectory.UnlistedIsNotCached` | SylicaOss/Library/QemuFwCfg/Cache.c:64-98 | what is neither cached nor in the table is selected on the device, and reads give its next bytes, unmeasured |

## Left out

- Bytes.Store: a `DataView` setter that throws halfway through a record has written its earlier fields; the failed buffer is
  not looked at again, so it is left unchanged here.
- Schema.UnpackPack: a byte has no bit 8 or 9, so flags with these indices read as false, as in the code; what they were
  meant to say is left open.
- Schema.PackUnpack: `custom` fields with bytes of their own are packed by some classes and unpacked by others but never both, so they are outside the round trips.
- TdxQuote.UnpackPackedQuote: the strings and dates the page derives from a quote are not part of the record.
- CcelLog.UnpackPackedLog: the names of event types are left out; which numbers have a name is kept, because the others are refused.
- Rtmr0.SameRegisterExactly: memory sizes of 2^53 bytes or more that are no whole number of kilobytes, and sizes of 2^63 bytes or more.
- TdHob.TdxMeasureHob: offsets and lengths inside an image are exact, because an image is shorter than 2^53 bytes.
- Rtmr0.JsMain: the registers 1 and 2, which only the browser predicts, and the reading of memory sizes.
- PeImage.ImageCovered: files whose sections overlap or leave gaps are modelled by the function but have no theorem.
- SnpMeasure.MeasureSnp: the contents of the processor save areas are parameters, and their register constants are left out.
- BlobVerifier.Verifier.VerifyBlob: an unaligned or unmapped table is not an error in the model; memory is total.
- QemuLoader.Loader.LookupNamedBlobs: a file name without terminator ends with its field instead of running on into the next.
- QemuLoader.Loader.QemuLoaderEntrypoint: taking the file system down again always succeeds, as the driver asserts; blobs freed on failure paths keep their values because nothing serves them.
- StubFiles.StubFile.OpenFile: handles are never out of memory; closing and deleting only end the use of a handle.
- StubFiles.RunServes: calls through a handle that was closed are not modelled.
- FwCfgRuns.RunKeeps: which sizes of hand-off blocks are granted, where the firmware has an upper limit, is a parameter.
- FwCfgLibrary.FwCfg.Select: the build without a work area (a null pointer, or the guard for booting without PEI) is left out.
- FwCfgLibrary.FwCfg.Find: QemuFwCfgLib, which selects, reads and finds files on top of the cache, is not part of this repository; its usual implementation is modelled, with what a short integer read leaves unset taken as zero.
- FwCfgDevice.Device.ReadBytes: port input and output, with the device's transfer registers, is one stream of answers.
- Nested records are values: a record that is changed after it was stored in another one is stored in its final form.
- SHA-256 and SHA-384 themselves, signatures, certificates and revocation lists (verify.js, main.go): library code.
- Failing hash calls other than the one of the blob verifier.
- Boot manager, console, image loading and other calls into UEFI services that the repository does not contain.
- The EFI_FILE_SYSTEM_INFO and volume label answers of the stub files; they would only add easy members.
- The browser page, the server, the hex dump, shell scripts and the build.
