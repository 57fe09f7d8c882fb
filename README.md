# A verified model of an ARIB STD-B60 MMT/TLV and MPEG-2 TS demultiplexer

This project models, in Dafny, the core of a TypeScript demultiplexer for
Japanese digital broadcasting. It covers two stream formats:

- **MMT/TLV** (ARIB STD-B60/B32): the carrier layer of 4K/8K satellite broadcasting;
- **MPEG-2 TS** (ARIB STD-B10): the legacy transport stream.

Both readers take the byte stream in arbitrary blocks. They cut it into packets, reassemble the signalling tables, and hand decoded packets, media units and tables to registered listeners. Listeners are kept as opaque identities. Every dispatch is recorded as an invocation in the event target's log, in the order the listeners were called.

The model follows the program's structure, one module per source file:

- **Runtime and event target**
  - `Js` and `Decoding` write out the JavaScript runtime the decoders depend on:
    - typed-array `slice`/`subarray` index clamping;
    - big-endian `DataView` reads;
    - 32-bit bitwise operators;
    - the three ways a decoder can end: a value, `undefined`, or a thrown exception.
  - `Utils` holds the `BinaryReader` cursor (a class whose methods move its `offset`), `concatBuffers`, the four-/three-character codes, the MJD/BCD time conversions and the IPv4/IPv6 text forms.
  - `EventTarget` is the listener registry: a map from event type to an ordered, duplicate-free listener list.
- **TLV framer** (`TlvReader`, src/index.ts)
  - `Process` finds the 0x7F sync byte and the next complete TLV packet.
  - `MMTTLVReader.Push` drains the carry-over buffer.
  - Signalling packets go to the TLV-SI decoder; IPv6/UDP-compressed packets go to the MMTP reader.
- **MMTP and MPU** (`Mmtp`, `Mpu`, `Tlv`, `LocationInfo`)
  - the 12-byte MMTP header;
  - the extension walk that drops scrambled packets;
  - listener gating of MPU and signalling payloads;
  - the per-packet-id fragment queue that reassembles signalling messages;
  - the MPU payload with its aggregated units;
  - the IPv6/UDP header readers;
  - the general location info.
- **MMT-SI** (`MmtSi`, `MmtSiTables`, `MmtSiData`, `MmtSiDescriptor`, `SiDescriptor`)
  - the PA, M2-section, M2-short-section, CA and data-transmission messages;
  - the MPT, PLT, MH-EIT, MH-SDT, MH-CDT, MH-TOT, MH-BIT, MH-AIT, EMT, CAT, DDMT and DAMT tables;
  - the tag-dependent descriptor loop and its per-tag readers;
  - the descriptors shared with TLV-SI.
- **TLV-SI** (`TlvSi`): the TLV network information table, the address map table and their descriptor loop.
- **MPEG-2 TS** (`TsReader`, `TsSectionReader`, `TsSi`, `TsSiDescriptor`, `TsDescriptors`, `TsEvents`)
  - the transport stream reader, which locks onto 188-, 192- or 204-byte packets by searching for six sync bytes at a fixed stride and re-locks after a lost sync;
  - the per-PID section reassembler with continuity-counter checks;
  - `readSection` with the PSI/SI tables: PAT, CAT, PMT, NIT, BIT, SDT, EIT, TOT and CDT;
  - the DSM-CC DII, DDB and stream-descriptor sections;
  - the legacy descriptor loop with its per-tag readers.

Every loop in the source is a method with loop invariants. Each method is proved equal to a recursive specification function over the cursor position. The properties the format promises are lemmas about those functions:

- round trips from an encoding back to the decoded list;
- truncation behaviour;
- the drain invariants of the framers;
- the queue and buffer invariants of the reassemblers.

JavaScript behaviour is modelled as the code has it, not as it was presumably meant:

- An unguarded `DataView` read past the end, and `throw 1` in `readStreamDescriptors`, give a `Thrown` result. That result ends the enclosing `push`, leaving the state as it was at the throw.
- `readNTP64Timestamp` adds `1 << 32`, which is 1 in JavaScript.
- The content copy control descriptor's component loop tests its sub-cursor but reads the outer cursor, so it ends in a RangeError whenever it is entered.
- The EIT `tableIndex`/`other` computation of src/ts/si.ts compares with `<=` against the BEGIN constants. Table ids 0x51-0x57 give indices -7..-1, and 0x59-0x5f are flagged "other".
- The hierarchical transmission descriptor reader has no `return`, so it always yields `undefined`.
- `ipv6ToString` places the compressed zero run after the last non-zero field it saw. A run at the start of the address therefore keeps its first field and swallows the field that ends it, so `::1` prints as `0::`.
- `TSReader` reports, as each packet's offset, the stream position just after the packet's slot. This is the value the code computes after advancing `packetOffset`.

## Model

| member | source | states |
|---|---|---|
| Utils.BinaryReader.constructor | src/utils.ts:7-11 | the cursor holds the buffer and starts at the given offset |
| Utils.BinaryReader.ReadUint8 | src/utils.ts:12-15 | moves the offset by 1 and returns the byte at the old offset (below 256); the byte must exist, as for a DataView |
| Utils.BinaryReader.ReadInt16 | src/utils.ts:16-19 | moves the offset by 2 and returns the signed big-endian 16-bit value at the old offset |
| Utils.BinaryReader.ReadUint16 | src/utils.ts:20-23 | moves the offset by 2 and returns the unsigned big-endian 16-bit value at the old offset (below 2^16) |
| Utils.BinaryReader.ReadUint24 | src/utils.ts:24-29 | moves the offset by 3 and returns the 16-bit high part shifted by 8 or-ed with the third byte (below 2^24) |
| Utils.BinaryReader.ReadUint32 | src/utils.ts:30-33 | moves the offset by 4 and returns the unsigned big-endian 32-bit value at the old offset |
| Utils.BinaryReader.ReadUint40 | src/utils.ts:34-39 | moves the offset by 5 and returns the 32-bit high part times 256 plus the fifth byte (below 2^40) |
| Utils.BinaryReader.ReadNTP64Timestamp | src/utils.ts:40-53 | moves the offset by 8; the fraction is the second word; the seconds are the first word when its bit 31 is set and that word plus `1 << 32` (which JavaScript evaluates to 1) otherwise |
| Utils.BinaryReader.Slice | src/utils.ts:54-62 | `slice(n)` moves the offset by n and returns the bytes between the old and new offsets, with the clamping of `Uint8Array.slice` |
| Utils.BinaryReader.SliceRest | src/utils.ts:55-58 | `slice()` returns everything from the offset and moves the offset to the end |
| Utils.BinaryReader.Subarray | src/utils.ts:63-71 | `subarray(n)` returns the same bytes as `slice(n)` and moves the offset by n |
| Utils.BinaryReader.SubarrayRest | src/utils.ts:64-67 | `subarray()` returns everything from the offset and moves the offset to the end |
| Utils.BinaryReader.Skip | src/utils.ts:72-74 | moves the offset by any amount, past the end or backwards |
| Utils.BinaryReader.Tell | src/utils.ts:75-77 | returns the offset and changes nothing |
| Utils.CanReadInView | src/utils.ts:78-80 | a cursor for which `canRead(n)` holds can serve every read of width up to n |
| Utils.ConcatBuffers | src/utils.ts:83-95 | the result is the in-order concatenation of the buffers, and its length is the sum of their lengths |
| Utils.SetAt | src/utils.ts:91 | `result.set(buffer, offset)` writes the part at the offset and leaves the bytes before it alone |
| Utils.FlattenLength | src/utils.ts:87 | the concatenation is as long as the `reduce` sum of the lengths |
| Utils.FlattenSplit | src/utils.ts:90-93 | concatenation splits at any index of the list, so the running copy offset is the length copied so far |
| Utils.CharByte | src/utils.ts:98 | `charCodeAt(i) & 255` is below 256, and 0 for a missing character |
| Utils.FourCC | src/utils.ts:97-103 | the result is a signed 32-bit value whose four bytes, big-endian, are the low bytes of the first four character codes |
| Utils.ThreeCC | src/utils.ts:105-110 | the result is below 2^24 and its three bytes are the low bytes of the first three character codes |
| Utils.MjdToUnixEpoch | src/utils.ts:112-114 | the result is a whole number of days, MJD minus 40587, in seconds |
| Utils.BcdTimeToSeconds | src/utils.ts:116-127 | the seconds of the day read from six four-bit groups never exceed 165 times 3661 |
| Utils.BcdTime | src/utils.ts:116-127 | the BCD coding of hh:mm:ss, the inverse direction used to state the round trip, fits in 24 bits |
| Utils.BcdDigits | src/utils.ts:117-126 | each of the six four-bit groups is read back as its digit, whatever lies above them |
| Utils.BcdTimeRoundTrip | src/utils.ts:116-127 | decoding the BCD coding of hh:mm:ss gives h*3600 + m*60 + s |
| Utils.MjdBcdToUnixEpochOf | src/utils.ts:129-132 | a 40-bit MJD plus BCD time decodes to the day since the Unix epoch plus the time of day, minus the nine hours of JST |
| Utils.Ipv4ToStringDots | src/utils.ts:134-136 | the text of a four-byte address holds exactly three dots |
| Utils.Ipv4ToStringChars | src/utils.ts:134-136 | every character of that text is a decimal digit or a dot |
| Utils.FieldAt | src/utils.ts:145 | a 16-bit field of the address is below 2^16 (a missing byte reads as 0) |
| Utils.HexFields | src/utils.ts:165 | an address has eight hexadecimal fields |
| Utils.Ipv6ToString | src/utils.ts:138-171 | the method's result is the text the two passes define (`Ipv6Text`) |
| Utils.LongestZeroRun | src/utils.ts:139-156 | the first loop computes the longest zero run as `ZeroScan` defines it |
| Utils.EmitAddress | src/utils.ts:157-170 | the second loop builds the text `EmitFields` defines for all sixteen bytes |
| Utils.ZeroScanShort | src/utils.ts:144-156 | without two consecutive zero fields the first loop finds no run longer than one field |
| Utils.EmitFieldsPlain | src/utils.ts:157-169 | with no run to compress, each field is printed and followed by a colon unless it is the last |
| Utils.Ipv6TextUncompressed | src/utils.ts:138-171 | without two consecutive zero fields the text is the eight hexadecimal fields joined by colons |
| Utils.Ipv6TextSevenColons | src/utils.ts:138-171 | without two consecutive zero fields the text holds exactly seven colons |
| Utils.Ipv6TextLeadingRun | src/utils.ts:138-171 | an address whose first seven fields are zero and whose last is not prints as "0::": the compressed run starts after field 0 and drops the last field |
| Js.ToInt32 | src/utils.ts:102 | the 32-bit conversion of a bitwise operator gives a signed 32-bit value congruent to its operand modulo 2^32 |
| Js.RelIndex | src/utils.ts:61 | a `slice` index is clamped to the buffer: inside it is kept, past the end it is the length, far enough below zero it is 0 |
| Js.Slice | src/utils.ts:61 | `slice(start, end)` is the plain sub-sequence for an in-range pair and empty when the end does not pass the start |
| Js.SliceClamped | src/utils.ts:61 | a range that starts inside the buffer is cut at the buffer's end |
| Js.DecimalString | src/utils.ts:135 | a template literal prints a number as one or more decimal digits |
| Js.HexString | src/utils.ts:165 | `toString(16)` prints one or more lowercase hexadecimal digits |
| Js.HexStringRoundTrip | src/utils.ts:165 | reading the `toString(16)` text back gives the number |
| Js.HexStringNoLeadingZero | src/utils.ts:165 | the text starts with '0' exactly when the number is 0 |
| Js.HexStringLength | src/utils.ts:165 | a 16-bit field prints as one to four digits |
| EventTarget.SetAdd | src/event-target.ts:9 | `Set.add`: the members are the old ones plus the callback, the old order is kept, the size grows by one only for a new callback, and no callback appears twice |
| EventTarget.SetDelete | src/event-target.ts:26 | `Set.delete`: the members are the old ones minus the callback, the others keep their order, and deleting an unknown callback changes nothing |
| EventTarget.Calls | src/event-target.ts:19 | `forEach` calls every listener once, in insertion order, with the event |
| EventTarget.ListenersOf | src/event-target.ts:15-18 | a type that was never registered has no listeners |
| EventTarget.CustomEventTarget.constructor | src/event-target.ts:2 | a new target has no listeners and has made no calls |
| EventTarget.CustomEventTarget.AddEventListener | src/event-target.ts:3-10 | the type's set (created when missing) gains the callback; other types and the calls are unchanged |
| EventTarget.CustomEventTarget.GetListenerCount | src/event-target.ts:11-13 | returns the size of the type's set, 0 for a type never registered |
| EventTarget.CustomEventTarget.DispatchEvent | src/event-target.ts:14-20 | appends one call per registered listener, in order, and leaves the registrations unchanged; nothing for an unregistered type |
| EventTarget.CustomEventTarget.RemoveEventListener | src/event-target.ts:21-27 | the type's set loses the callback; an unregistered type is left as it is |
| EventTarget.AddThenRemoveCount | src/event-target.ts:3-27 | adding a known callback keeps the count, a new one raises it by one, and removing a callback just added restores the set |
| EventTarget.DeleteAppended | src/event-target.ts:9-26 | deleting the callback appended last gives back the set before it |
| Sections.SectionHeaderAt | src/mmt-si.ts:259-263 | the version number is below 32, the byte is rebuilt from version, indicator and its top two bits, and the section numbers are the next two bytes |
| Sections.ReadSectionHeader | src/mmt-si.ts:259-263 | reads three bytes and returns the header `SectionHeaderAt` defines at the old offset |
| Application.LengthPrefixedAtSpec | src/application.ts:39-43 | a length-prefixed string is read exactly when its length byte and its bytes fit, and it is those bytes, ending just after them |
| Application.ChecksumAtSpec | src/application.ts:44-54 | a checksum follows the flag exactly when the flag's top bit is set; the read fails only when the flag or the checksum is cut short |
| Application.CompressionAtSpec | src/application.ts:63-73 | an original size follows the compression type exactly when the type is not 0xff; the read fails only when either is cut short |
| Application.ItemAtFields | src/application.ts:33-83 | a decoded item holds the two 32-bit words, the version and the file name where the layout puts them, a checksum exactly when the flag's top bit is set, and an original size exactly when it is compressed |
| Application.ItemsFrom | src/application.ts:32-84 | a list of k items, when it decodes, has k items |
| Application.IndexItemOf | src/application.ts:25-88 | a buffer shorter than two bytes gives undefined; a decoded index has as many items as its 16-bit count |
| Application.ReadIndexItem | src/application.ts:25-88 | the reader's result is the index `IndexItemOf` defines |
| Application.ReadItems | src/application.ts:32-84 | the loop reads the items `ItemsFrom` defines from the cursor, or undefined as soon as one fails |
| Application.ReadNextItem | src/application.ts:32-84 | one pass of the loop: on failure the whole list fails; otherwise the list is this item followed by the rest from the new offset |
| Application.ReadItem | src/application.ts:33-83 | the loop body returns the item `ItemAt` defines at the old offset and leaves the cursor just after it, or undefined exactly when `ItemAt` fails |
| Application.ReadLengthPrefixed | src/application.ts:39-43 | reads the length-prefixed string `LengthPrefixedAt` defines and moves past it |
| Application.ReadChecksum | src/application.ts:44-54 | reads the flag and the checksum `ChecksumAt` defines and moves past them |
| Application.ReadCompression | src/application.ts:63-73 | reads the compression type and original size `CompressionAt` defines and moves past them |
| Application.ItemsFromFails | src/application.ts:33-35 | an item that does not decode makes the whole index undefined |
| Application.ItemsFromStep | src/application.ts:32-84 | helper, one turn of the loop: the list is the item at the offset followed by the rest read from where it ends |
| Application.ItemWindow | src/application.ts:33-83 | the wire form of a well-formed item, found anywhere in a buffer, reads back as that item and ends after its length |
| Application.ItemsRoundTrip | src/application.ts:32-84 | the wire forms of a list of items, found one after another, read back as that list |
| Application.IndexItemRoundTrip | src/application.ts:25-88 | a buffer holding a 16-bit count and that many encoded items, whatever follows, reads back as those items |
| LocationInfo.LocationInfoAt | src/mmt-general-location-info.ts:18-48 | only types 0x00 and 0x02 decode, spanning 3 and 37 bytes; otherwise the type byte (when present) is still consumed and the result is undefined |
| LocationInfo.ReadMMTGeneralLocationInfo | src/mmt-general-location-info.ts:18-48 | the reader returns the location `LocationInfoAt` defines and leaves the cursor where it says |
| LocationInfo.LocationInfoRoundTrip | src/mmt-general-location-info.ts:18-48 | the wire form of a well-formed location, whatever follows it, reads back as that location and ends after it |
| LocationInfo.SameDataflowRoundTrip | src/mmt-general-location-info.ts:26-33 | type 0x00 and a 16-bit packet id read back as a same-dataflow location of 3 bytes |
| LocationInfo.IPv6DataflowRoundTrip | src/mmt-general-location-info.ts:34-44 | type 0x02, two 16-byte addresses, a port and a packet id read back as an IPv6 location of 37 bytes |
| LocationInfo.LocationAfter | src/mmt-general-location-info.ts:18-48 | a location read at p depends only on the bytes from p on |
| LocationInfo.LocationWindow | src/mmt-general-location-info.ts:18-48 | an encoded location found at p reads back, and the cursor ends just after it |
| Tlv.EncodeIPv6Header | src/tlv.ts:16-76 | the wire form of a header has the size the reader consumes: 38 bytes compressed, 40 in full |
| Tlv.IPv6WordFields | src/tlv.ts:20-23 | the first 32-bit word yields version, traffic class and flow label as its 4, 8 and 20 bit fields |
| Tlv.IPv6HeaderWindow | src/tlv.ts:20-27 | each field of an encoded header lies where the reader takes it |
| Tlv.IPv6HeaderRoundTrip | src/tlv.ts:16-76 | decoding an encoded IPv6 header, whatever follows it, gives it back, in both the compressed and the full form |
| Tlv.ReadHCfBIPv6Header | src/tlv.ts:16-37 | a header is returned exactly when 38 bytes can be read; it is `IPv6HeaderAt` (compressed) and the cursor moves by 38; otherwise the cursor stays |
| Tlv.ReadIPv6Header | src/tlv.ts:51-76 | a header is returned exactly when 40 bytes can be read; it is `IPv6HeaderAt` (full, with the payload length) and the cursor moves by 40; otherwise the cursor stays |
| Tlv.ReadHCfBUDPHeader | src/tlv.ts:39-49 | the two ports are returned exactly when 4 bytes can be read, and the cursor moves by 4; otherwise it stays |
| Tlv.ReadUDPHeader | src/tlv.ts:78-94 | ports, length and checksum are returned exactly when 8 bytes can be read, and the cursor moves by 8; otherwise it stays |
| Tlv.EncodeUDPHeader | src/tlv.ts:39-94 | the wire form of a UDP header is 4 bytes compressed and 8 in full |
| Tlv.UDPHeaderRoundTrip | src/tlv.ts:39-94 | decoding an encoded UDP header, whatever follows it, gives it back |
| Mpu.MFUListOf | src/mpu.ts:61-163 | the list's kind follows the timed flag; a single unit fails exactly when its header (14 bytes timed, 4 non-timed) does not fit, and then takes the rest of the buffer as data; aggregated lists are the walks `TimedUnits`/`NonTimedItems` from offset 6 |
| Mpu.MPUOf | src/mpu.ts:44-164 | an MPU is returned exactly when the 6-byte header fits, the fragment type is 2 and the unit list decodes; timed flag, aggregation flag, fragment counter and sequence number are the header's |
| Mpu.ReadMPU | src/mpu.ts:44-164 | the reader returns the MPU `MPUOf` defines |
| Mpu.ReadMFUList | src/mpu.ts:61-163 | the part after the header returns the unit list `MFUListOf` defines |
| Mpu.ReadTimedUnits | src/mpu.ts:87-114 | the loop reads the units `TimedUnits` defines from the cursor |
| Mpu.ReadNextTimedMFU | src/mpu.ts:88-113 | one pass of the loop always consumes the length; it either ends the list or yields the unit that heads the rest |
| Mpu.ReadTimedMFU | src/mpu.ts:96-105 | reads the 14-byte unit header and the data up to the unit's length |
| Mpu.ReadNonTimedItems | src/mpu.ts:138-152 | the loop reads the items `NonTimedItems` defines from the cursor |
| Mpu.ReadNextNonTimedMFU | src/mpu.ts:139-151 | one pass of the loop always consumes the length; it either ends the list or yields the item that heads the rest |
| Mpu.ReadNonTimedMFU | src/mpu.ts:146-147 | reads the 4-byte item id and the data up to the item's length |
| Mpu.TimedMFUReadBack | src/mpu.ts:88-113 | the length and header fields of an encoded unit read back at its position |
| Mpu.TimedUnitsCons | src/mpu.ts:87-114 | a unit whose length fits and is at least 14 is read, and the walk resumes after it |
| Mpu.TimedUnitsDecodeEncoded | src/mpu.ts:87-114 | the walk over a buffer laid out as encoded units yields those units |
| Mpu.TimedUnitsRoundTrip | src/mpu.ts:87-114 | a buffer that ends with the wire form of some timed units yields exactly those units |
| Mpu.NonTimedMFUReadBack | src/mpu.ts:139-151 | the length, id and data of an encoded item read back at its position |
| Mpu.NonTimedItemsRoundTrip | src/mpu.ts:138-152 | a buffer that ends with the wire form of some non-timed items yields exactly those items |
| Mmtp.HeaderAt | src/mmtp.ts:106-125 | the header decodes exactly when its 12 bytes fit and, when bit 5 of the flags is set, 4 more for the packet counter; it ends after them; version, FEC type and payload type fit 2, 2 and 6 bits |
| Mmtp.HeaderRoundTrip | src/mmtp.ts:106-125 | every header the reader can carry reads back from its bytes, whatever follows |
| Mmtp.HeaderWindow | src/mmtp.ts:106-125 | an encoded header found at the start of a packet reads back and ends after it |
| Mmtp.FlagsOf | src/mmtp.ts:109-117 | the flag byte yields version, FEC type, the packet counter flag, the extension flag and the RAP flag from their bits |
| Mmtp.CounterFlagInFecType | src/mmtp.ts:113-115 | because both are read from bit 5, a packet counter is present exactly when the FEC type is 2 or 3 |
| Mmtp.ScrambledIff | src/mmtp.ts:137-161 | the extension walk drops the packet exactly when one of the entries it reaches is a scrambling entry with non-zero control bits |
| Mmtp.WalkHeaderExtensions | src/mmtp.ts:137-161 | the loop over the extension body returns the verdict `ScrambledFrom` defines |
| Mmtp.ExtensionAt | src/mmtp.ts:126-162 | without the extension flag nothing is read; with it, a packet that passes has its 4-byte header and body inside the buffer and continues after the body |
| Mmtp.ScrambledPacketDropped | src/mmtp.ts:149-157 | an extension of type 0 holding a scrambling entry with control bits set drops the packet |
| Mmtp.GatedType | src/mmtp.ts:196-210 | exactly the SDT, CDT, BIT, EIT and TOT packet ids are gated, each on its own section event |
| Mmtp.SIEventOf | src/mmtp.ts:39-102 | an event needs a decoded message; PLT only on packet id 0 from a PA message whose first table is a PLT; MPT from a PA message whose first table is an MPT; section events only on their gated packet id; never NIT or MPU |
| Mmtp.SectionEventsOnFixedIds | src/mmtp.ts:53-100 | SDT, CDT, BIT and EIT events come from an M2 section of that table on its fixed packet id, and TOT from a short section on the TOT id |
| Mmtp.Listened | src/mmtp.ts:164 | an event type is listened to exactly when it has at least one listener (`getListenerCount` is not 0) |
| Mmtp.Emitted | src/mmtp.ts:48-98 | nothing dispatched makes no call; a dispatched event makes one call per listener of its type |
| Mmtp.FragmentStep | src/mmtp.ts:219-235 | COMPLETE delivers the payload alone and forgets the id; HEAD starts the id's list afresh; MIDDLE and TAIL append to an existing list and are dropped otherwise; TAIL delivers the list and keeps it; other ids are untouched |
| Mmtp.MiddlesAppend | src/mmtp.ts:226-233 | a run of MIDDLE fragments on a started id appends their payloads in order |
| Mmtp.Reassembly | src/mmtp.ts:219-235 | a HEAD, any number of MIDDLEs and a TAIL on one id deliver all their payloads in order, whatever the queue held before |
| Mmtp.OrphansIgnored | src/mmtp.ts:226-229 | MIDDLE fragments on an id with no HEAD change nothing |
| Mmtp.MPUEffect | src/mmtp.ts:163-191 | without an "mpu" listener nothing is dispatched; with one, the event is the MPU payload event |
| Mmtp.MPUPayloadAt | src/mmtp.ts:167-191 | an MPU event is made exactly when the 16-bit length and that many bytes fit and `readMPU` accepts them; it carries the header and the MPU |
| Mmtp.SIEffect | src/mmtp.ts:192-235 | a signalling payload shorter than 2 bytes, one on a gated id without listeners, and an aggregated one change nothing; a section event is only made for a listened type |
| Mmtp.QueueEffect | src/mmtp.ts:219-235 | a throw dispatches nothing; an event is the one `onSI` makes for some message on this id; other ids are untouched |
| Mmtp.SectionEventsGated | src/mmtp.ts:196-210 | every section event `onSI` can make is on the packet id gated for that type |
| Mmtp.PushEffect | src/mmtp.ts:104-237 | a packet whose header or extension does not fit, or that is scrambled, changes nothing; MPU and section events are made only for listened types; only signalling payloads touch the queue or throw |
| Mmtp.PayloadEffect | src/mmtp.ts:163-236 | MPU and section events only for listened types; only a signalling payload touches the queue or throws |
| Mmtp.MMTPReader.constructor | src/mmtp.ts:30-33 | the reader keeps its target and starts with an empty queue |
| Mmtp.MMTPReader.Reset | src/mmtp.ts:35-37 | the queue is emptied |
| Mmtp.MMTPReader.OnSI | src/mmtp.ts:39-102 | the fragments are joined and decoded; the call throws exactly when decoding throws, and otherwise the listeners of `SIEventOf`'s event are called |
| Mmtp.MMTPReader.Push | src/mmtp.ts:104-237 | the new queue, the throw and the listener calls are those `PushEffect` defines for the old queue and the listened types |
| Mmtp.MMTPReader.PushPayload | src/mmtp.ts:163-236 | the payload branch has the effect `PayloadEffect` defines |
| Mmtp.MMTPReader.PushMPU | src/mmtp.ts:163-191 | the MPU branch calls the listeners of the event `MPUEffect` defines |
| Mmtp.MMTPReader.PushSI | src/mmtp.ts:192-235 | the signalling branch has the effect `SIEffect` defines |
| Mmtp.MMTPReader.Enqueue | src/mmtp.ts:219-235 | one fragment has the effect `QueueEffect` defines |
| Mmtp.ReadMPUPayload | src/mmtp.ts:167-174 | reads the MPU payload event `MPUPayloadAt` defines |
| Mmtp.ReadHeader | src/mmtp.ts:106-125 | reads the header `HeaderAt` defines and moves past it |
| Mmtp.ReadExtension | src/mmtp.ts:126-162 | the packet passes exactly when `ExtensionAt` succeeds, and the cursor is then after the extension |
| TlvReader.IndexOf | src/index.ts:124 | -1 exactly when the byte is absent; otherwise an index holding it with no earlier occurrence |
| TlvReader.Process | src/index.ts:123-152 | nothing is consumed exactly when the buffer is empty or starts with an unfinished frame; a buffer without a sync byte is dropped whole; an unknown type after a sync byte skips 1 byte when it is itself 0x7F and 2 otherwise; an unfinished frame keeps its sync byte at the head; a cut packet is a whole frame preceded only by bytes without a sync byte |
| TlvReader.FrameCut | src/index.ts:123-152 | junk without a sync byte followed by a whole frame is cut as that frame, the junk dropped with it, whatever follows |
| TlvReader.MMTPOutcome | src/index.ts:113-115 | a packet whose MMTP header does not fit at the offset neither changes the queue, nor throws, nor calls a listener |
| TlvReader.SIOutcome | src/index.ts:45-52 | the queue is untouched; a throw happens exactly when TLV-SI decoding throws; only a decoded NIT calls listeners, and then every "nit" listener once |
| TlvReader.CompressedOutcome | src/index.ts:98-117 | packets under 8 bytes are ignored; context header 0x61 hands the packet over at offset 7, 0x60 at offset 49 when that many bytes are there; other context header types are ignored |
| TlvReader.OwnListeners | src/index.ts:45-52 | the framer's own "nit" dispatch reaches every listener while it holds its event target and none once it is closed |
| TlvReader.PacketOutcome | src/index.ts:90-118 | TLV-SI packets go to the TLV-SI decoder with the framer's own listeners, compressed-IP packets to the compressed branch with all listeners, and IPv6, null and other packets do nothing |
| TlvReader.ClosedOutcome | src/index.ts:67-69 | after `close` every packet changes the fragment queue and throws as before; TLV-SI packets call no listener, and all other packets behave exactly as before |
| TlvReader.RouterOf | src/index.ts:90-118 | the router routes every packet as `PacketOutcome` does for the current listeners and the current open or closed state |
| TlvReader.Drain | src/index.ts:84-119 | the kept bytes are no more than the buffer; unless a decoder threw, they are empty or one unfinished frame |
| TlvReader.JunkDropped | src/index.ts:124-127 | a buffer without a sync byte is dropped whole and nothing happens |
| TlvReader.IncompleteKept | src/index.ts:128-130 | a buffer holding one unfinished frame is kept whole for the next block and nothing happens |
| TlvReader.DrainPacket | src/index.ts:84-119 | routing one cut packet either ends the loop with the throw, the buffer past the packet, or leaves the loop where draining the rest ends |
| TlvReader.DrainUnfold | src/index.ts:84-119 | draining a buffer that yields a packet routes it, stops on a throw, and otherwise drains the rest after it with the new queue |
| TlvReader.MMTTLVReader.constructor | src/index.ts:40-44 | the buffer and the fragment queue start empty, the event target is held, with no listeners and no calls |
| TlvReader.MMTTLVReader.AddEventListener | src/index.ts:53-58 | while the target is held, the callback is added to its type's listeners as `CustomEventTarget` does; after `close` nothing changes; no call is made |
| TlvReader.MMTTLVReader.RemoveEventListener | src/index.ts:60-65 | while the target is held, the callback is removed from its type's listeners when the type has any; after `close` nothing changes; no call is made |
| TlvReader.MMTTLVReader.Close | src/index.ts:67-69 | the event target is deleted and the buffer is unchanged |
| TlvReader.MMTTLVReader.Reset | src/index.ts:71-74 | the buffer and the MMTP fragment queue are emptied; an open or closed reader stays so |
| TlvReader.MMTTLVReader.Push | src/index.ts:76-120 | an empty block changes nothing; otherwise the kept bytes, the queue, the throw and the listener calls are those `Drain` gives for the old buffer followed by the block |
| TlvReader.MMTTLVReader.Route | src/index.ts:90-118 | routing one packet has the effect `PacketOutcome` defines |
| TlvReader.MMTTLVReader.OnSI | src/index.ts:45-52 | the throw and the calls are those `SIOutcome` defines for the listeners the framer still reaches |
| TlvReader.MMTTLVReader.RouteCompressed | src/index.ts:98-117 | the compressed branch has the effect `CompressedOutcome` defines |
| TlvSi.ByteOrZero | src/tlv-si.ts:106 | an index inside the buffer reads its byte; one past the end reads 0, as `undefined` does under a bitwise operator |
| TlvSi.KeysFromSpec | src/tlv-si.ts:101-111 | the key loop yields one key per announced entry whose first two bytes fit, stopping at the first that does not; each key is the id byte and the 16-bit service id after it |
| TlvSi.KeysFromComplete | src/tlv-si.ts:99-111 | when all 5-byte entries fit, exactly the announced number of keys is read, each from its own entry |
| TlvSi.RemoteControlKeyOf | src/tlv-si.ts:93-116 | an empty body is rejected; otherwise the descriptor holds the keys the announced count reads |
| TlvSi.ReadRemoteControlKeyDescriptor | src/tlv-si.ts:93-116 | the loop reads the descriptor `RemoteControlKeyOf` defines |
| TlvSi.TLVDescriptorOf | src/tlv-si.ts:128-162 | unknown tags are skipped; a network name is always kept; a service list is kept with its entries; the remote control key, system management and satellite delivery readers keep the descriptor exactly when they accept the body |
| TlvSi.Kept | src/tlv-si.ts:133-136 | a rejected descriptor adds nothing and an accepted one adds itself alone |
| TlvSi.TLVDescriptorsRoundTrip | src/tlv-si.ts:118-165 | a run of tag-length-body frames that fills the buffer decodes to the descriptors their tags and bodies give, in order |
| TlvSi.DescriptorsFromStep | src/tlv-si.ts:121-163 | helper, one turn of the loop: while 4 bytes remain and the body fits, the list is this frame's descriptor, if kept, then the rest after it |
| TlvSi.FrameAt | src/tlv-si.ts:121-163 | the first encoded frame lies at the cursor with its tag, length and body, and the rest of the run follows it |
| TlvSi.FinalShortFrameDropped | src/tlv-si.ts:121 | for every run of frames, a final frame with a body of at most 1 byte is not read although its body fits, because the loop asks for 4 bytes; the run before it reads as usual |
| TlvSi.ReadTLVDescriptor | src/tlv-si.ts:128-162 | the switch makes the descriptor `TLVDescriptorOf` defines |
| TlvSi.ReadDescriptors | src/tlv-si.ts:118-165 | the loop reads the list `TLVDescriptorsFrom` defines from offset 0 |
| TlvSi.ReadDescriptor | src/tlv-si.ts:122-162 | one turn either ends the list or moves forward and yields the next descriptors of the list |
| TlvSi.ReadDescriptorsIn | src/tlv-si.ts:198 | a length-bounded descriptor list is read from its window and the cursor moves past it |
| TlvSi.TLVHeaderAt | src/tlv-si.ts:185-190 | the version keeps its bit position (twice the 5-bit field); the current/next flag and the section numbers are the common section header's |
| TlvSi.ReadTLVHeader | src/tlv-si.ts:185-190 | reads the 3 header bytes `TLVHeaderAt` defines |
| TlvSi.StreamAt | src/tlv-si.ts:204-216 | the loop ends when fewer than 10 bytes remain; a stream whose descriptors do not fit makes the table undefined; otherwise it has its two 16-bit ids and ends after its descriptors |
| TlvSi.StreamsFrom | src/tlv-si.ts:203-217 | the stream loop never throws |
| TlvSi.NITOf | src/tlv-si.ts:167-228 | a clear syntax bit or a section longer than the buffer makes the table undefined; a read NIT carries its kind, network id, header and network descriptors from their fixed offsets, and the streams after the loop length |
| TlvSi.NITStreamsOf | src/tlv-si.ts:199-227 | reading the loop length past the end throws; a loop that does not fit is undefined; otherwise only the streams of the table are filled in |
| TlvSi.ReadNIT | src/tlv-si.ts:167-228 | reads the table `NITOf` defines |
| TlvSi.ReadNITStreams | src/tlv-si.ts:199-227 | reads the streams `NITStreamsOf` defines |
| TlvSi.ReadStreams | src/tlv-si.ts:203-217 | the loop reads the streams `StreamsFrom` defines |
| TlvSi.ReadStream | src/tlv-si.ts:205-216 | reads one stream as `StreamAt` defines and moves past it |
| TlvSi.ServiceIPAt | src/tlv-si.ts:265-303 | the addresses are 4 bytes for IPv4 and 16 for IPv6, and the masks are bytes |
| TlvSi.AMTServiceAt | src/tlv-si.ts:256-308 | a service is never a throw; fewer than 4 bytes is undefined; a read service ends 4 bytes plus its 10-bit loop length after its start |
| TlvSi.AMTServiceBody | src/tlv-si.ts:263-308 | the service body ends where the loop length says and keeps its service id |
| TlvSi.AMTServiceRead | src/tlv-si.ts:304-308 | a service read ends where it is told and keeps its id |
| TlvSi.AMTServiceShape | src/tlv-si.ts:259-308 | a read service has the id at its start, IPv6 exactly when the top bit is set, addresses of that family's width, and private data of the loop length less the address block, or none when the loop is shorter |
| TlvSi.AMTServiceShortfall | src/tlv-si.ts:265-303 | a service whose first 4 bytes fit is undefined exactly when its address block or its whole loop length does not fit |
| TlvSi.AMTServices | src/tlv-si.ts:255-309 | the service loop never throws and reads exactly the announced number of services |
| TlvSi.AMTOf | src/tlv-si.ts:229-319 | never a throw; a clear syntax bit is undefined; a read AMT carries its extension and header from their fixed offsets and the services from the 10-bit count |
| TlvSi.AMTServiceRoundTrip | src/tlv-si.ts:256-308 | every well-formed service reads back from its encoding, whatever surrounds it |
| TlvSi.AMTServiceWindow | src/tlv-si.ts:256-308 | an encoded service found at the cursor reads back and ends after it |
| TlvSi.HeaderWindow | src/tlv-si.ts:259-260 | two encoded 16-bit fields read back at the cursor |
| TlvSi.ServiceBodyWindow | src/tlv-si.ts:263-308 | an encoded address block and private data read back as the service body |
| TlvSi.IPWindow | src/tlv-si.ts:265-303 | an encoded address block has its family's width and reads back |
| TlvSi.ReadAMT | src/tlv-si.ts:229-319 | reads the table `AMTOf` defines |
| TlvSi.ReadAMTServices | src/tlv-si.ts:255-309 | the loop reads the services `AMTServices` defines |
| TlvSi.ReadNextAMTService | src/tlv-si.ts:256-308 | one turn either makes the loop undefined or yields a service followed by the rest |
| TlvSi.ReadAMTService | src/tlv-si.ts:256-308 | reads one service as `AMTServiceAt` defines and moves past it |
| TlvSi.ReadAMTServiceBody | src/tlv-si.ts:263-308 | reads the body `AMTServiceBody` defines and moves past it |
| TlvSi.ReadServiceIP | src/tlv-si.ts:266-279 | reads the address block `ServiceIPAt` defines and moves past it |
| TlvSi.TLVSIOf | src/tlv-si.ts:321-337 | a packet without a byte after its 4-byte header is undefined; a NIT comes from table id 0x40 (actual) or 0x41 (other), an AMT from 0xFE; any other id is undefined |
| TlvSi.ReadTLVSI | src/tlv-si.ts:321-337 | reads the table `TLVSIOf` defines |
| SiDescriptor.NetworkNameOf | src/si-descriptor.ts:8-13 | the name is a copy of the whole body, byte for byte |
| SiDescriptor.SystemManagementRoundTrip | src/si-descriptor.ts:24-37 | a body under 2 bytes is rejected; every descriptor with a 2-bit flag, a 6-bit identifier and a byte of additional identification reads back from its encoding |
| SiDescriptor.ServiceEntriesSpec | src/si-descriptor.ts:49-63 | the list has one entry per whole 3-byte triple, trailing bytes ignored; entry k is the 16-bit id and the type byte of triple k |
| SiDescriptor.ReadServiceListDescriptor | src/si-descriptor.ts:49-63 | the loop reads the entries `ServiceEntries` defines |
| SiDescriptor.AreaCodes | src/si-descriptor.ts:92-95 | exactly the announced number of codes |
| SiDescriptor.AreaCodesSpec | src/si-descriptor.ts:93-95 | code i is word i shifted right by 4, so it fits 12 bits |
| SiDescriptor.EmergencyServiceAt | src/si-descriptor.ts:83-101 | a service read needs its 4 header bytes and ends inside the buffer, after them |
| SiDescriptor.EmergencyServicesBound | src/si-descriptor.ts:83-102 | each service read takes at least 4 bytes |
| SiDescriptor.ReadEmergencyInformationDescriptor | src/si-descriptor.ts:78-107 | reads the services `EmergencyServices` defines from offset 0 |
| SiDescriptor.ReadEmergencyServices | src/si-descriptor.ts:83-102 | the loop reads the services `EmergencyServices` defines |
| SiDescriptor.ReadEmergencyService | src/si-descriptor.ts:84-101 | one turn reads the service `EmergencyServiceAt` defines and moves past it |
| SiDescriptor.ReadAreaCodes | src/si-descriptor.ts:93-95 | reads the codes `AreaCodes` defines and moves 2 bytes per code |
| SiDescriptor.SatelliteDeliverySystemOf | src/si-descriptor.ts:120-137 | a body under 11 bytes is rejected; the FEC is the low 4 bits of the 32-bit word at 7, polarization fits 2 bits and modulation 5 |
| SiDescriptor.SignedShiftRight4 | src/si-descriptor.ts:134 | the signed shift of a 32-bit word by 4 is negative exactly when its top bit is set, and agrees with the unsigned shift modulo 2^28 |
| SiDescriptor.SatelliteSymbolRate | src/si-descriptor.ts:134 | the symbol rate is negative exactly when the top bit of the word is set, and otherwise is its top 28 bits |
| MmtSi.LengthFieldWidth | src/mmt-si.ts:54-114 | the payload length is 4 bytes wide for PA and data transmission messages and 2 for the others |
| MmtSi.MessageWith | src/mmt-si.ts:54-114 | each message kind comes only from its own message id, and carries the version byte |
| MmtSi.MessageOf | src/mmt-si.ts:45-117 | fewer than 3 bytes is undefined; a decoded message has a known id, the version from byte 2, and room for its length field |
| MmtSi.MessageRoundTrip | src/mmt-si.ts:45-117 | an id, a version, a length field of the right width and a payload decode as that message's reader makes of the payload, whatever follows |
| MmtSi.SectionFrameOf | src/mmt-si.ts:165-178 | a section is framed exactly when its 3-byte prefix fits, its syntax bit is as required, and its 12-bit length is at least 4 and fits; the payload is the section less its 4-byte CRC |
| MmtSi.SectionFrameRoundTrip | src/mmt-si.ts:165-178 | a table id, a syntax bit, reserved bits, a length covering payload and CRC, the payload and a CRC frame back to that table id and payload |
| MmtSi.PAMessageOf | src/mmt-si.ts:127-146 | a PA message is defined exactly when its count byte and the 4-byte entries it announces fit; its tables are read from after them |
| MmtSi.M2SectionMessageOf | src/mmt-si.ts:163-220 | a section that does not frame is undefined; a decoded message carries the table its table id selects from its payload |
| MmtSi.M2Message | src/mmt-si.ts:211-219 | the message is made exactly when the table is, and a throw from the table reader passes through |
| MmtSi.M2TableOf | src/mmt-si.ts:180-214 | ECM, EMM, EMM message, SDTT and TOT ids make nothing; an EIT comes only from ids 0x8B-0x9B, an SDT from 0x9F or 0xA0, and CDT, BIT, AIT and EMT from their own ids |
| MmtSi.M2ShortSectionMessageOf | src/mmt-si.ts:706-739 | a decoded short section has a clear syntax bit, the TOT table id, the version, and the TOT its payload reads |
| MmtSi.CAMessageOf | src/mmt-si.ts:753-788 | a CA message is decoded exactly when its 4-byte prefix fits, the table id is CAT, the 16-bit length fits and its descriptors decode; the CAT keeps the table version byte |
| MmtSi.DataTransmissionMessageOf | src/mmt-si.ts:799-835 | a section that does not frame is undefined; a decoded one is a DDMT or a DAMT |
| MmtSi.TableIndex | src/mmt-si.ts:290-297 | an EIT table id has a table index from 0 to 7 |
| MmtSi.TableIndexRoundTrip | src/mmt-si.ts:290-313 | an EIT table id is recovered from its kind and index, and a kind and index from the table id they make |
| MmtSi.StartTimeOf | src/mmt-si.ts:286 | the start time is undefined exactly when all 40 bits are set |
| MmtSi.DurationOf | src/mmt-si.ts:287 | the duration is undefined exactly when all 24 bits are set |
| MmtSi.EventAt | src/mmt-si.ts:269-289 | the loop ends when fewer than 12 bytes remain or the descriptors do not fit; an event ends after its 12 bytes and its descriptors |
| MmtSi.EventHeadAt | src/mmt-si.ts:270-276 | the event id is the first word, the running status fits 3 bits, and a present start time or duration is the 40- or 24-bit field |
| MmtSi.EventStep | src/mmt-si.ts:280-289 | helper, one turn of the loop: an event is kept with its id and ends where told, unless its descriptors throw |
| MmtSi.EventsFrom | src/mmt-si.ts:269-290 | the event loop is never undefined |
| MmtSi.EITOf | src/mmt-si.ts:250-327 | under 11 bytes is undefined; a read EIT carries the kind and indexes its table ids give, its ids, header and segment number from fixed offsets, and the events after byte 11 |
| MmtSi.ReadMHEventInformationTable | src/mmt-si.ts:250-327 | reads the table `EITOf` defines |
| MmtSi.ReadEvents | src/mmt-si.ts:269-290 | the loop reads the events `EventsFrom` defines |
| MmtSi.ReadEvent | src/mmt-si.ts:270-289 | reads one event as `EventAt` defines and moves past it |
| MmtSi.ReadEventHead | src/mmt-si.ts:270-276 | reads the 12 head bytes `EventHeadAt` defines and the 12-bit loop length |
| MmtSi.ServiceAt | src/mmt-si.ts:367-389 | the loop ends when fewer than 5 bytes remain or the descriptors do not fit; a service ends after its 5 bytes and its descriptors |
| MmtSi.ServiceHeadAt | src/mmt-si.ts:368-376 | the service id is the first word; user flags and running status fit 3 bits; the present/following flag is bit 0 |
| MmtSi.ServiceStep | src/mmt-si.ts:380-388 | helper, one turn of the loop: a service is kept with its id and ends where told, unless its descriptors throw |
| MmtSi.ServicesFrom | src/mmt-si.ts:367-390 | the service loop is never undefined |
| MmtSi.SDTOf | src/mmt-si.ts:350-401 | under 8 bytes is undefined; a read SDT is actual exactly for table id 0x9F and carries its ids and header from fixed offsets and the services after the reserved byte |
| MmtSi.ReadMHServiceDescriptionTable | src/mmt-si.ts:350-401 | reads the table `SDTOf` defines |
| MmtSi.ReadServices | src/mmt-si.ts:367-390 | the loop reads the services `ServicesFrom` defines |
| MmtSi.ReadService | src/mmt-si.ts:368-389 | reads one service as `ServiceAt` defines and moves past it |
| MmtSi.ReadServiceHead | src/mmt-si.ts:368-376 | reads the 5 head bytes `ServiceHeadAt` defines and the 12-bit loop length |
| MmtSi.CDTOf | src/mmt-si.ts:429-478 | undefined under 10 bytes or when the descriptors overrun; throws exactly when the descriptors throw; otherwise a CDT exactly when the logo data module after the descriptors reads, and then its ids, header, data type, descriptors and module are the ones at their offsets |
| MmtSi.TOTOf | src/mmt-si.ts:486-505 | undefined exactly when the 7 fixed bytes or the descriptor loop do not fit; the JST time is the 40-bit field and the descriptors come from the loop |
| MmtSi.EMTOf | src/mmt-si.ts:669-696 | under 7 bytes is undefined; the first word splits into a 4-bit data event id and a 12-bit group id; the descriptors fill the rest |
| MmtSi.BroadcasterAt | src/mmt-si.ts:546-556 | the loop ends when fewer than 3 bytes remain; otherwise the broadcaster is never undefined, even when its descriptors run past the end |
| MmtSi.BroadcasterOf | src/mmt-si.ts:547-555 | a broadcaster keeps its id and ends where told, unless its descriptors throw |
| MmtSi.BroadcastersFrom | src/mmt-si.ts:546-556 | the broadcaster loop is never undefined |
| MmtSi.BITOf | src/mmt-si.ts:524-568 | undefined exactly when the 7 fixed bytes or the first descriptors do not fit; the view propriety flag is bit 12 of the word at 5; the broadcasters follow the first descriptors |
| MmtSi.ReadMHBroadcasterInformationTable | src/mmt-si.ts:524-568 | reads the table `BITOf` defines |
| MmtSi.ReadBroadcasters | src/mmt-si.ts:546-556 | the loop reads the broadcasters `BroadcastersFrom` defines |
| MmtSi.ReadBroadcaster | src/mmt-si.ts:547-555 | reads one broadcaster as `BroadcasterAt` defines and moves past it |
| MmtSi.ApplicationAt | src/mmt-si.ts:628-645 | the loop ends when fewer than 9 bytes remain; descriptors that do not fit make the table undefined; an application ends after its 9 bytes and its descriptors |
| MmtSi.ApplicationHeadAt | src/mmt-si.ts:629-632 | the organization id is a 16-bit word, the application id a 32-bit word, then the control code byte |
| MmtSi.ApplicationStep | src/mmt-si.ts:636-644 | helper, one turn of the loop: an application keeps its id and ends where told, unless its descriptors throw |
| MmtSi.AITOf | src/mmt-si.ts:603-656 | under 7 bytes is undefined; a read AIT carries its application type and header |
| MmtSi.AITApplicationsOf | src/mmt-si.ts:620-655 | reading the loop length past the end throws; a read table has its application loop inside the buffer and differs from the given one only in its applications |
| MmtSi.ReadMHApplicationInformationTable | src/mmt-si.ts:603-656 | reads the table `AITOf` defines |
| MmtSi.ReadApplicationLoop | src/mmt-si.ts:620-655 | reads the application loop `AITApplicationsOf` defines |
| MmtSi.ReadApplicationsIn | src/mmt-si.ts:624-627 | reads the applications of a loop window and moves past it |
| MmtSi.ReadApplications | src/mmt-si.ts:628-645 | the loop reads the applications `ApplicationsFrom` defines |
| MmtSi.ReadApplication | src/mmt-si.ts:629-644 | reads one application as `ApplicationAt` defines and moves past it |
| MmtSi.ReadApplicationHead | src/mmt-si.ts:629-632 | reads the 9 head bytes `ApplicationHeadAt` defines and the 12-bit descriptor length |
| MmtSiTables.TableFrameAt | src/mmt-si.ts:1119-1123 | a table entry needs its 4 header bytes and the list moves at least past them |
| MmtSiTables.TableOf | src/mmt-si.ts:1125-1132 | only the MPT and PLT table ids make a table, each its own kind |
| MmtSiTables.TablesFrom | src/mmt-si.ts:1116-1138 | the table list is never undefined: a table that fails to read is skipped |
| MmtSiTables.CollectTables | src/mmt-si.ts:1133-1135 | collecting tables never makes the list undefined |
| MmtSiTables.TablesFromFrames | src/mmt-si.ts:1116-1138 | the list read from a buffer is the tables its frames make, in order, skipping those that fail |
| MmtSiTables.OtherTablesDropped | src/mmt-si.ts:1125-1135 | frames with no MPT or PLT id yield an empty list |
| MmtSiTables.ReadTable | src/mmt-si.ts:1124-1132 | the switch makes the table `TableOf` defines |
| MmtSiTables.ReadTables | src/mmt-si.ts:1116-1138 | the loop reads the tables `TablesFrom` defines |
| MmtSiTables.ReadTableFrame | src/mmt-si.ts:1120-1123 | reads the frame `TableFrameAt` defines and moves past it |
| MmtSiTables.PackageAt | src/mmt-si.ts:1274-1289 | a package read moves forward and stays inside the buffer; it never throws |
| MmtSiTables.Packages | src/mmt-si.ts:1273-1290 | the package loop never throws and yields at most the announced count |
| MmtSiTables.PLTOf | src/mmt-si.ts:1266-1296 | a read PLT keeps the version and has at most as many packages as its count byte; it never throws |
| MmtSiTables.PackageWindow | src/mmt-si.ts:1274-1289 | an encoded package found at the cursor reads back and ends after it |
| MmtSiTables.ReadPackageListTable | src/mmt-si.ts:1266-1296 | reads the table `PLTOf` defines |
| MmtSiTables.ReadPackages | src/mmt-si.ts:1273-1290 | the loop reads the packages `Packages` defines |
| MmtSiTables.ReadPackage | src/mmt-si.ts:1274-1289 | reads one package as `PackageAt` defines and moves past it |
| MmtSiTables.LocationsAt | src/mmt-si.ts:1210-1217 | the location loop reads exactly the announced number of locations, or fails |
| MmtSiTables.AssetHeaderAt | src/mmt-si.ts:1189-1209 | an asset header needs at least its 12 fixed bytes |
| MmtSiTables.AssetAt | src/mmt-si.ts:1188-1234 | an asset read moves forward |
| MmtSiTables.AssetDescriptorsAt | src/mmt-si.ts:1218-1233 | the asset descriptors follow the 2-byte length and only the descriptors of the asset are filled in |
| MmtSiTables.LocationsFail | src/mmt-si.ts:1210-1216 | a location loop that fails early fails for any larger count |
| MmtSiTables.Assets | src/mmt-si.ts:1188-1235 | the asset loop yields at most the announced count |
| MmtSiTables.AssetsAt | src/mmt-si.ts:1188-1235 | the asset loop from a non-zero count yields at most that count |
| MmtSiTables.MPTOf | src/mmt-si.ts:1163-1244 | a read MPT keeps the version, a 2-bit mode, a package id of the announced length, and at most 255 assets |
| MmtSiTables.MPTDescriptorsOf | src/mmt-si.ts:1174-1186 | reading the descriptors keeps the version, mode and package id |
| MmtSiTables.MPTAssetsOf | src/mmt-si.ts:1183-1235 | reading the assets changes only the assets, at most as many as the count byte |
| MmtSiTables.ReadMMTPackageTable | src/mmt-si.ts:1163-1244 | reads the table `MPTOf` defines |
| MmtSiTables.ReadMPTDescriptors | src/mmt-si.ts:1174-1186 | reads the descriptors `MPTDescriptorsOf` defines |
| MmtSiTables.ReadMPTAssets | src/mmt-si.ts:1183-1235 | reads the assets `MPTAssetsOf` defines |
| MmtSiTables.ReadAssets | src/mmt-si.ts:1188-1235 | the loop reads the assets `Assets` defines |
| MmtSiTables.ReadNextAsset | src/mmt-si.ts:1188-1234 | one turn ends the loop as `Assets` does, or yields an asset followed by the rest |
| MmtSiTables.ReadAsset | src/mmt-si.ts:1189-1234 | reads one asset as `AssetAt` defines and moves past it |
| MmtSiTables.ReadAssetHeader | src/mmt-si.ts:1189-1209 | reads the header `AssetHeaderAt` defines and moves past it |
| MmtSiTables.ReadAssetDescriptors | src/mmt-si.ts:1218-1233 | reads the descriptors `AssetDescriptorsAt` defines and moves past them |
| MmtSiTables.ReadLocations | src/mmt-si.ts:1210-1217 | reads the locations `LocationsAt` defines and moves past them |
| MmtSiTables.PackageIdToServiceId | src/mmt-si.ts:1246-1251 | a service id exactly for a 2-byte package id, and the id is its big-endian value |
| MmtSiTables.PackageIdRoundTrip | src/mmt-si.ts:1246-1251 | every 16-bit service id is recovered from its 2-byte package id |
| MmtSiData.FileAt | src/mmt-si.ts:903-915 | a file entry never throws; a read one is the node tag, the length byte and that many bytes of name, inside the buffer |
| MmtSiData.FilesAt | src/mmt-si.ts:902-916 | the file loop never throws and reads exactly the announced count, or the table is undefined |
| MmtSiData.FilesStayFailed | src/mmt-si.ts:902-916 | once one file fails, the loop fails the same way for any larger count |
| MmtSiData.NodeAt | src/mmt-si.ts:887-922 | a node never throws; a read one ends after its 6 fixed bytes and its path |
| MmtSiData.NodesAt | src/mmt-si.ts:886-923 | the node loop never throws and reads exactly the announced count, or the table is undefined |
| MmtSiData.NodesStayFailed | src/mmt-si.ts:886-923 | once one node fails, the loop fails the same way for any larger count |
| MmtSiData.DDMTOf | src/mmt-si.ts:861-934 | a 5-byte body throws, because a sixth byte is read after a 5-byte check; a shorter one is undefined; a read DDMT has its session id, the base path its length byte announces, and as many nodes as the count after it |
| MmtSiData.ReadDataDirectoryManagementTable | src/mmt-si.ts:861-934 | reads the table `DDMTOf` defines |
| MmtSiData.ReadDirectoryNodes | src/mmt-si.ts:886-923 | the loop reads the nodes `NodesAt` defines and moves past them |
| MmtSiData.ReadDirectoryNode | src/mmt-si.ts:887-922 | reads one node as `NodeAt` defines and moves past it |
| MmtSiData.ReadFiles | src/mmt-si.ts:902-916 | the loop reads the files `FilesAt` defines and moves past them |
| MmtSiData.ReadFile | src/mmt-si.ts:903-915 | reads one file as `FileAt` defines and moves past it |
| MmtSiData.OptionalU32At | src/mmt-si.ts:1017-1022 | an absent field reads nothing; a present one is undefined exactly when 4 bytes are not left, and otherwise is the 32-bit word |
| MmtSiData.ByteStringAt | src/mmt-si.ts:1057-1064 | a length-prefixed string reads exactly when its length byte and body fit, and is that body |
| MmtSiData.ItemAt | src/mmt-si.ts:1037-1070 | an item never throws; a read one has its 12 fixed bytes and its info inside the buffer, and a checksum exactly when bit 7 of the flag byte is set |
| MmtSiData.ItemsAt | src/mmt-si.ts:1036-1071 | the item loop never throws and reads exactly the announced count, or the table is undefined |
| MmtSiData.ItemsStayFailed | src/mmt-si.ts:1036-1071 | once one item fails, the loop fails the same way for any larger count |
| MmtSiData.NodeTagsAt | src/mmt-si.ts:1028-1034 | exactly the announced number of tags, tag i the 16-bit word i |
| MmtSiData.MPUItemsAt | src/mmt-si.ts:1023-1072 | the items never throw; with the index item flag they are bare node tags, otherwise full items, after the 2-byte count |
| MmtSiData.MPUInfoAt | src/mmt-si.ts:1073-1080 | the MPU info is undefined exactly when its length-prefixed body does not fit, and ends after that body |
| MmtSiData.MPUAt | src/mmt-si.ts:1008-1088 | a read MPU has its 9 fixed bytes; its items are node tags exactly when bit 7 of the flag byte is set, and it has an index item id exactly when bits 7 and 6 are both set |
| MmtSiData.MPUsAt | src/mmt-si.ts:1007-1089 | the MPU loop reads exactly the announced count, or fails |
| MmtSiData.MPUsStayFailed | src/mmt-si.ts:1007-1089 | once one MPU fails, the loop fails the same way for any larger count |
| MmtSiData.DAMTOf | src/mmt-si.ts:987-1112 | under 15 bytes is undefined; exactly 15 throws, because a sixteenth byte is read after a 15-byte check; a read DAMT has as many MPUs as its count byte |
| MmtSiData.DAMTAfterMPUs | src/mmt-si.ts:999-1111 | a read DAMT carries the MPUs read and its transaction id, component tag and download id from fixed offsets; a throw in the MPU loop passes through |
| MmtSiData.ReadDataAssetManagementTable | src/mmt-si.ts:987-1112 | reads the table `DAMTOf` defines |
| MmtSiData.ReadDataAssetMPUsAndInfo | src/mmt-si.ts:1006-1111 | reads the MPUs and the component info as `DAMTAfterMPUs` defines |
| MmtSiData.ReadDataAssetMPUs | src/mmt-si.ts:1007-1089 | the loop reads the MPUs `MPUsAt` defines and moves past them |
| MmtSiData.ReadDataAssetMPU | src/mmt-si.ts:1008-1088 | reads one MPU as `MPUAt` defines and moves past it |
| MmtSiData.ReadOptionalUint32 | src/mmt-si.ts:1017-1022 | reads the field `OptionalU32At` defines and moves past it |
| MmtSiData.ReadMPUItems | src/mmt-si.ts:1023-1072 | reads the items `MPUItemsAt` defines and moves past them |
| MmtSiData.ReadNodeTags | src/mmt-si.ts:1028-1034 | reads the tags `NodeTagsAt` defines, 2 bytes each |
| MmtSiData.ReadItems | src/mmt-si.ts:1036-1071 | the loop reads the items `ItemsAt` defines and moves past them |
| MmtSiData.ReadItem | src/mmt-si.ts:1037-1070 | reads one item as `ItemAt` defines and moves past it |
| MmtSiData.ReadByteString | src/mmt-si.ts:1057-1064 | reads the string `ByteStringAt` defines and moves past it |
| MmtSiData.ReadMPUInfo | src/mmt-si.ts:1073-1080 | reads the descriptors `MPUInfoAt` defines and moves past them |
| MmtSiDescriptor.FrameAt | src/mmt-si-descriptor.ts:108-134 | the length read throws exactly when the tag and one byte are there but the length field of the width the tag selects is not; the loop stops exactly under 3 bytes or when the body overruns; otherwise the frame is the tag, a body of the announced length right after the length field, and the loop goes on after it |
| MmtSiDescriptor.Frames | src/mmt-si-descriptor.ts:105-261 | framing is never undefined: it either lists frames or throws on a length field that does not fit |
| MmtSiDescriptor.DescriptorsFrom | src/mmt-si-descriptor.ts:105-261 | the descriptor loop is never undefined: a descriptor that fails to read is skipped |
| MmtSiDescriptor.DescriptorsAfter | src/mmt-si-descriptor.ts:135-258 | continuing after a frame never makes the list undefined |
| MmtSiDescriptor.Collect | src/mmt-si-descriptor.ts:255-257 | collecting descriptors never makes the list undefined |
| MmtSiDescriptor.DescriptorsFromFrames | src/mmt-si-descriptor.ts:105-261 | the list is the descriptors the frames make, in order, or a throw when framing throws |
| MmtSiDescriptor.ShortLengthFieldThrows | src/mmt-si-descriptor.ts:108-129 | because the loop asks for only 3 bytes, a 2- or 4-byte length field that does not fit throws |
| MmtSiDescriptor.FrameWindow | src/mmt-si-descriptor.ts:108-134 | an encoded frame found at the cursor frames back and ends after it |
| MmtSiDescriptor.FramesEncodedAtOf | src/mmt-si-descriptor.ts:105-261 | a run of encoded frames at the cursor lies there frame by frame |
| MmtSiDescriptor.FramesOfEncoded | src/mmt-si-descriptor.ts:105-261 | a run laid out frame by frame to the end of the buffer frames back whole |
| MmtSiDescriptor.FramesStep | src/mmt-si-descriptor.ts:108-134 | helper, one turn of the loop: one encoded frame followed by framed rest frames as their list |
| MmtSiDescriptor.FramesRoundTrip | src/mmt-si-descriptor.ts:105-261 | every list of well-formed frames frames back from its encoding |
| MmtSiDescriptor.DescriptorsOfEncoded | src/mmt-si-descriptor.ts:105-261 | the encoding of a frame list decodes to the descriptors those frames make |
| MmtSiDescriptor.CollectSkips | src/mmt-si-descriptor.ts:255-257 | a frame whose reader rejects its body adds nothing, at the head or the tail of the list |
| MmtSiDescriptor.AccessControlOf | src/mmt-si-descriptor.ts:271-287 | an access control descriptor is read exactly when its CA system id fits and a location can be read after it |
| MmtSiDescriptor.AccessControlRoundTrip | src/mmt-si-descriptor.ts:271-287 | a CA system id and an encoded location read back, the rest kept as private data |
| MmtSiDescriptor.ComponentControlsFrom | src/mmt-si-descriptor.ts:327-343 | the component loop, which tests the inner cursor but reads the outer one, is never undefined: it ends on a throw or on the break of a flagged entry |
| MmtSiDescriptor.ComponentControlsThrow | src/mmt-si-descriptor.ts:327-343 | without a flagged entry to break on, the component loop always throws |
| MmtSiDescriptor.ContentCopyControlThrows | src/mmt-si-descriptor.ts:303-351 | a descriptor whose component region of 4 bytes or more ends the body throws |
| MmtSiDescriptor.ReadContentCopyControlDescriptor | src/mmt-si-descriptor.ts:303-351 | reads the descriptor `ContentCopyControlOf` defines |
| MmtSiDescriptor.ReadComponentControls | src/mmt-si-descriptor.ts:318-345 | reads the component list `ComponentControlsFrom` defines when the region holds 4 bytes, and none otherwise |
| MmtSiDescriptor.EmergencyNewsOf | src/mmt-si-descriptor.ts:358-369 | read exactly when 9 bytes are there |
| MmtSiDescriptor.ContentUsageControlOf | src/mmt-si-descriptor.ts:384-405 | read exactly when 2 bytes are there; the retention state fits 3 bits |
| MmtSiDescriptor.RatingsLength | src/mmt-si-descriptor.ts:417-434 | one rating per whole 4 bytes |
| MmtSiDescriptor.ReadMHParentalRatingDescriptor | src/mmt-si-descriptor.ts:417-434 | the loop reads the ratings `Ratings` defines |
| MmtSiDescriptor.AssetGroupOf | src/mmt-si-descriptor.ts:515-524 | read exactly when 2 bytes are there, from those two bytes |
| MmtSiDescriptor.TimestampsLength | src/mmt-si-descriptor.ts:536-551 | one timestamp per whole 12 bytes |
| MmtSiDescriptor.ReadMPUTimestampDescriptor | src/mmt-si-descriptor.ts:536-551 | the loop reads the timestamps `Timestamps` defines |
| MmtSiDescriptor.HierarchyOf | src/mmt-si-descriptor.ts:572-587 | read exactly when 4 bytes are there; type fits 4 bits and the indexes and channel 6 |
| MmtSiDescriptor.GroupEvents | src/mmt-si-descriptor.ts:1054-1064 | exactly the announced number of events |
| MmtSiDescriptor.EventGroupSpec | src/mmt-si-descriptor.ts:1045-1096 | read exactly when the count byte and its 4-byte events fit; the group type is the high nibble; group types 4 and 5 carry other-network events and the others private data |
| MmtSiDescriptor.ReadMHEventGroupDescriptor | src/mmt-si-descriptor.ts:1045-1096 | reads the descriptor `EventGroupOf` defines |
| MmtSiDescriptor.ReadOtherNetworkEvents | src/mmt-si-descriptor.ts:1069-1081 | the loop reads the events `OtherNetworkEvents` defines |
| MmtSiDescriptor.LogoTransmissionOf | src/mmt-si-descriptor.ts:1457-1504 | rejected exactly when the type byte is missing or not 1 or 2, or its fields do not fit; type 1 is direct with a 9-bit logo id and 12-bit version, type 2 indirect |
| MmtSiDescriptor.ReadMHLogoTransmissionDescriptor | src/mmt-si-descriptor.ts:1457-1504 | reads the descriptor `LogoTransmissionOf` defines |
| MmtSiDescriptor.ReadLogoEntries | src/mmt-si-descriptor.ts:1473-1482 | the loop reads the logo entries `LogoEntries` defines |
| MmtSiDescriptor.ScramblerOf | src/mmt-si-descriptor.ts:1689-1702 | read exactly when 2 bytes are there; the layer type fits 2 bits, the system id is byte 1 and the rest is private data |
| MmtSiDescriptor.EventMessageOf | src/mmt-si-descriptor.ts:2001-2048 | read exactly when 14 bytes are there and the time mode is 0, 1, 2, 3 or 5; mode 0 is immediate; type, id and private data from their fixed offsets |
| MmtSiDescriptor.MPUNodeOf | src/mmt-si-descriptor.ts:2050-2058 | read exactly when 2 bytes are there, as the 16-bit node tag |
| MmtSiDescriptor.ReadDescriptor | src/mmt-si-descriptor.ts:135-254 | the switch makes the descriptor `DescriptorOf` defines |
| MmtSiDescriptor.ReadFrame | src/mmt-si-descriptor.ts:109-134 | reads the frame `FrameAt` defines and moves past it |
| MmtSiDescriptor.ReadMMTSIDescriptors | src/mmt-si-descriptor.ts:105-261 | the loop reads the list `DescriptorsFrom` defines |
| MmtSiDescriptor.DescriptorsIn | src/mmt-si-descriptor.ts:105-261 | a length-bounded descriptor list is never undefined |
| MmtSiDescriptor.ReadDescriptorsIn | src/mmt-si-descriptor.ts:105-261 | reads the descriptors of a window and moves past it |
| MmtSiDescriptor.ReadDescriptorList | src/mmt-si-descriptor.ts:108-260 | the loop reads the list `DescriptorsFrom` defines from the cursor |
| TsEvents.Dispatched | src/ts/section-reader.ts:63-110 | a dispatch through a deleted target, or of no event, makes no call; otherwise each listener of the event's type is called once with the payload |
| TsSectionReader.SectionLengthOf | src/ts/section-reader.ts:13-30 | a length exactly when 3 bytes are there, they are not a PES start code, the header after the pointer field fits, and both reserved bits are set; it fits 12 bits |
| TsSectionReader.SectionLengthOfStart | src/ts/section-reader.ts:13-30 | a pointer field, a table id and a length word with both reserved bits set yield that 12-bit length |
| TsSectionReader.PESStartIgnored | src/ts/section-reader.ts:17-19 | a payload that starts with the PES start code 00 00 01 opens no section |
| TsSectionReader.PointerBytes | src/ts/section-reader.ts:120-122 | the bytes before the section start are those the pointer field covers, clamped to the payload |
| TsSectionReader.PidEvent | src/ts/section-reader.ts:60-101 | exactly the fixed PAT, NIT, EIT, SDT, CDT, TOT and BIT PIDs have their own event |
| TsSectionReader.KindEvent | src/ts/section-reader.ts:60-112 | every table kind except CAT has an event type, never the packet event |
| TsSectionReader.SectionEventOf | src/ts/section-reader.ts:55-114 | an event exactly when the section decodes to a table with an event type that is the fixed PID's own, or, on any other PID, a PMT or DSM-CC table; it carries the PID and the section |
| TsSectionReader.EventsOnTheirPids | src/ts/section-reader.ts:60-112 | each event type comes only from its own table kind on its own PIDs; PMT and DSM-CC events only from PIDs without a fixed table |
| TsSectionReader.SectionCalls | src/ts/section-reader.ts:55-114 | a deleted target is never called |
| TsSectionReader.CompletedOutside | src/ts/section-reader.ts:158-161 | completing a section either leaves the buffers or deletes this PID |
| TsSectionReader.StartOutside | src/ts/section-reader.ts:117-140 | a packet that starts a section touches no other PID's buffer |
| TsSectionReader.ContinueOutside | src/ts/section-reader.ts:141-161 | a continuation packet touches no other PID's buffer |
| TsSectionReader.PushKeepsOtherPids | src/ts/section-reader.ts:115-162 | a packet leaves every other PID's buffer as it was |
| TsSectionReader.TotalLengthAppend | src/ts/section-reader.ts:155-156 | appending a payload adds its length to the total |
| TsSectionReader.CompletedAccounted | src/ts/section-reader.ts:158-161 | completion keeps every received length equal to its payloads' total, and a section it decodes holds the announced length plus 3 |
| TsSectionReader.PushAccounted | src/ts/section-reader.ts:115-162 | a packet keeps every received length equal to its payloads' total, and every section decoded has at least 3 bytes |
| TsSectionReader.StartAccounted | src/ts/section-reader.ts:117-140 | a start packet keeps the lengths accounted and decodes sections of at least 3 bytes |
| TsSectionReader.ClosedAccounted | src/ts/section-reader.ts:119-129 | a start packet first deletes its PID and completes the old buffer with the pointer bytes, keeping the lengths accounted |
| TsSectionReader.AccountedUpdate | src/ts/section-reader.ts:140 | storing an accounted buffer keeps all buffers accounted |
| TsSectionReader.ContinueAccounted | src/ts/section-reader.ts:141-161 | a continuation packet keeps the lengths accounted and decodes sections of at least 3 bytes |
| TsSectionReader.PushPending | src/ts/section-reader.ts:115-162 | unless a decoder throws, every buffer left behind still awaits more bytes |
| TsSectionReader.PushSectionCount | src/ts/section-reader.ts:115-162 | a packet decodes at most two sections, at most one without the start indicator; it throws exactly when the last one decoded throws, and no earlier one throws |
| TsSectionReader.DuplicateIgnored | src/ts/section-reader.ts:145-148 | a continuation packet repeating the last continuity counter changes nothing |
| TsSectionReader.DiscontinuityDrops | src/ts/section-reader.ts:149-153 | a continuation packet with neither the same nor the next counter drops its PID's buffer |
| TsSectionReader.StrayContinuationIgnored | src/ts/section-reader.ts:142-144 | a continuation packet on a PID with no section under way changes nothing |
| TsSectionReader.SinglePacketSection | src/ts/section-reader.ts:117-161 | a start packet holding its whole section decodes exactly that section and leaves no buffer |
| TsSectionReader.TwoPacketSection | src/ts/section-reader.ts:115-162 | a section split over a start packet and the next continuation is decoded as their joined payloads, and the buffers end as they began |
| TsSectionReader.SectionCallsAppend | src/ts/section-reader.ts:55-114 | the calls of two runs of sections are the calls of each, in order |
| TsSectionReader.SectionCallsOne | src/ts/section-reader.ts:55-114 | one section makes the calls of its own event |
| TsSectionReader.SectionReader.constructor | src/ts/section-reader.ts:47-50 | the reader keeps its target and decoder, is attached and has no buffers |
| TsSectionReader.SectionReader.Reset | src/ts/section-reader.ts:51-54 | the buffers are cleared and the target is deleted for good |
| TsSectionReader.SectionReader.ProcessSection | src/ts/section-reader.ts:55-114 | throws exactly when the decoder throws; otherwise the listeners of `SectionEventOf`'s event are called |
| TsSectionReader.SectionReader.Push | src/ts/section-reader.ts:115-162 | the new buffers, the throw and the listener calls are those `PushEffect` defines, one event per decoded section |
| TsSectionReader.SectionReader.PushStart | src/ts/section-reader.ts:117-140 | the start branch has the effect `StartEffect` defines |
| TsSectionReader.SectionReader.PushContinue | src/ts/section-reader.ts:141-161 | the continuation branch has the effect `ContinueEffect` defines |
| TsSectionReader.SectionReader.Complete | src/ts/section-reader.ts:158-161 | completing a buffer has the effect `Completed` defines |
| TsReader.PacketOf | src/ts/reader.ts:43-75 | a packet is kept exactly when the transport error indicator is clear, the scrambling control is 0 and the adaptation field control says a payload follows (1 or 3); the kept header has a 13-bit pid, a 4-bit continuity counter and a payload within the 184 bytes after the header |
| TsReader.HeaderFields | src/ts/reader.ts:44-53 | the header bits of an error-free, unscrambled 4-byte header read back as the start indicator, priority, pid, adaptation field control and continuity counter written into it |
| TsReader.PacketRoundTrip | src/ts/reader.ts:43-75 | a packet with a payload and no adaptation field decodes to its header fields and the 184 bytes after the header |
| TsReader.AdaptedPacketRoundTrip | src/ts/reader.ts:54-75 | a packet with an adaptation field decodes to the bytes after the adaptation field's length byte and body |
| TsReader.StrideIndexIs | src/ts/reader.ts:132 | the k-th candidate sync position from an offset is offset + k * packet size |
| TsReader.StrideShift | src/ts/reader.ts:132 | the candidate positions from the next packet are those from the current one shifted by one |
| TsReader.IsSynced | src/ts/reader.ts:130-136 | true exactly when every one of the `minSyncCount` bytes at the stride is the sync byte 0x47 and inside the buffer |
| TsReader.Resync | src/ts/reader.ts:124-146 | the lock found is the one the specification function ResyncOf gives: sizes tried in order, offsets from 0 |
| TsReader.FirstSyncedIsFirst | src/ts/reader.ts:129-143 | the offset loop answers the smallest synced offset whose last sync byte lies inside the buffer, or none exists |
| TsReader.ResyncIsFirst | src/ts/reader.ts:124-146 | the lock has one of the sizes 188, 192, 204, is synced, has no smaller synced offset at its size and no synced offset at any size tried before it; no lock means no size and offset is synced |
| TsReader.ResyncAligned | src/ts/reader.ts:124-146 | a buffer longer than six 188-byte packets that holds a sync byte at every 188th byte from 0 locks at size 188, offset 0 |
| TsReader.Unsynced | src/ts/reader.ts:90-93 | what is kept of an unsynchronised buffer is a suffix of it no longer than 6 * 204 * 2 bytes |
| TsReader.FrameFromShaped | src/ts/reader.ts:100-120 | every packet the loop hands on is 188 bytes starting with the sync byte, at a known packet size, and the buffer kept is a suffix of the joined buffer within the unsynchronised limit |
| TsReader.RelockedShaped | src/ts/reader.ts:103-116 | after a packet without the sync byte the same holds of the cut buffer |
| TsReader.FrameEnd | src/ts/reader.ts:100-120 | the loop stops with no packet handed on when less than one packet size is left, and keeps the bytes from the current offset |
| TsReader.FrameSynced | src/ts/reader.ts:101-118 | a packet with the sync byte is handed on first, reported at the position after it, followed by whatever the loop does from the next stride |
| TsReader.FrameResynced | src/ts/reader.ts:103-116 | a packet without the sync byte drops the buffer through that packet, and the loop continues from the new lock in the cut buffer |
| TsReader.FrameDropped | src/ts/reader.ts:103-111 | a packet without the sync byte and no new lock end the push with no further packet, keeping the cut buffer only when within the limit |
| TsReader.PushFramingShaped | src/ts/reader.ts:86-120 | every push, synchronised or not, hands on whole sync-byte packets and keeps a bounded suffix of the joined buffer |
| TsReader.AlignedFraming | src/ts/reader.ts:100-120 | a buffer whose n packets from the offset all start with the sync byte and whose tail is under a packet is cut into exactly those n packets, in order, each at the position after it, and the tail is kept with the same packet size |
| TsReader.SyncedTail | src/ts/reader.ts:100-103 | the first of n synced packets starts with the sync byte and the other n - 1 are synced from the next stride |
| TsReader.ProcessorOf | src/ts/reader.ts:43-78 | the packet processor is `processPacket` on every 188-byte packet: header decoding, the packet event, then the section reader's push |
| TsReader.SlotsRun | src/ts/reader.ts:100-119 | packets are processed in order; without a throw all are processed, and a throw stops the run at the packet that threw |
| TsReader.SlotsRunAccounted | src/ts/reader.ts:100-119 | processing the packets keeps every section buffer's received length equal to the bytes it holds |
| TsReader.TSReader.constructor | src/ts/reader.ts:8-18 | a new reader has an empty buffer, no packet size, no bytes, an attached target without listeners and a section reader on the same target with no buffers |
| TsReader.TSReader.Bytes | src/ts/reader.ts:14-17 | the byte count is the length of everything pushed since the last reset, and the carried buffer is no longer |
| TsReader.TSReader.AddEventListener | src/ts/reader.ts:19-24 | the listener is added to its type while the target is attached; after `close` nothing changes |
| TsReader.TSReader.RemoveEventListener | src/ts/reader.ts:26-31 | the listener is removed from its type while the target is attached; after `close` nothing changes |
| TsReader.TSReader.Close | src/ts/reader.ts:33-35 | the target is deleted and the buffer, packet size and byte count are unchanged |
| TsReader.TSReader.Reset | src/ts/reader.ts:37-41 | the buffer and the byte count start again, the section reader is emptied and loses its target, and the packet size is kept |
| TsReader.TSReader.ProcessPacket | src/ts/reader.ts:43-78 | the section buffers, the calls made and whether it threw are those of the packet processor on the listeners and buffers before the call |
| TsReader.TSReader.Push | src/ts/reader.ts:79-121 | the block is appended to the byte count; the packets handed on, the section buffers, the calls, the buffer and the packet size kept are those of framing the joined buffer from the stream position of its start and processing the packets in order, a throw keeping the buffer and size of the packet that threw |
| TsReader.TSReader.Frame | src/ts/reader.ts:86-120 | once the block is joined: synchronise when no packet size is known, then run the loop, with the outcome of PushFraming and SlotsRun |
| TsReader.TSReader.Cut | src/ts/reader.ts:100-120 | the loop from an offset ends with the outcome of FrameFrom and SlotsRun from that offset |
| TsReader.TSReader.NextPacket | src/ts/reader.ts:100-119 | one turn of the loop keeps the buffer a suffix of the stream, and either ends the push as the whole framing ends or resumes it after fewer bytes |
| TsReader.TSReader.TakePacket | src/ts/reader.ts:101-118 | a packet with the sync byte is processed; a throw ends the push keeping the current buffer and packet size, otherwise the loop resumes after it |
| TsReader.SkipPacket | src/ts/reader.ts:103-116 | a packet without the sync byte shortens the buffer; without a new lock the push ends, otherwise the loop resumes at the new lock |
| TsReader.ResumesFromStart | src/ts/reader.ts:100 | the loop's invariant holds at its start, before any packet |
| TsReader.ResumesEnd | src/ts/reader.ts:100-120 | when less than a packet is left, every packet was processed without a throw and the kept rest is the bytes from the offset |
| TsReader.ResumesDropped | src/ts/reader.ts:103-111 | a packet without the sync byte and no new lock: the push ends after every earlier packet was processed |
| TsReader.ResumesResynced | src/ts/reader.ts:103-116 | a packet without the sync byte and a new lock: the invariant holds at the lock in the cut buffer |
| TsReader.ThrowFinishes | src/ts/reader.ts:118 | a packet whose processing throws ends the push with the run's outcome and the buffer and size at that packet |
| TsReader.ResumesPacket | src/ts/reader.ts:118 | a packet processed without a throw: the invariant holds after it, one packet further |
| TsReader.ResumesAfterPacket | src/ts/reader.ts:118 | the same, for the section buffers and calls the processing left |
| TsReader.FrameFromRest | src/ts/reader.ts:100-120 | the loop leaves less than its packet size, unless it ended at a suffix with no lock, which is kept only up to the limit |
| TsReader.RelockedRest | src/ts/reader.ts:103-116 | the same after a packet without the sync byte, for the cut buffer |
| TsReader.PushFramingRest | src/ts/reader.ts:86-120 | a push with no packet size and no lock keeps the joined buffer up to the limit and learns no size; any other push that does not throw leaves less than one packet size, unless it ended unsynchronised |
| TsSi.SectionFrameOf | src/ts/si.ts:49-61 | a section needs three header bytes and its 12-bit section length of bytes, else undefined; a length of zero throws on the CRC read; otherwise the table id and the body before the four CRC bytes, which are not checked |
| TsSi.ReadSectionFrame | src/ts/si.ts:49-61 | the reader's framing is SectionFrameOf |
| TsSi.SectionFrameRoundTrip | src/ts/si.ts:49-61 | a table id, a length word with any reserved bits, a body and four CRC bytes read back as that table id and body, whatever follows |
| TsSi.TableOf | src/ts/si.ts:62-116 | a table id without a reader (ST, ECM, EMM, SDTT, anything unknown) is undefined; a decoded table is the kind its table id selects |
| TsSi.ReadTable | src/ts/si.ts:62-116 | the dispatch reads the body with the reader TableOf selects |
| TsSi.SectionOf | src/ts/si.ts:49-117 | a decoded section has the kind its first byte selects; a table id with no reader never decodes |
| TsSi.ReadSection | src/ts/si.ts:49-117 | `readSection` returns SectionOf of its buffer |
| TsSi.ShortSectionUndefined | src/ts/si.ts:57-116 | a section length of one to three leaves an empty body, which every table reader finds undefined |
| TsSi.ProgramAt | src/ts/si.ts:152-163 | program number 0 names the 13-bit network PID, any other program number its 13-bit PMT PID |
| TsSi.Programs | src/ts/si.ts:151-164 | the program loop yields one entry per whole 4 bytes left |
| TsSi.ProgramsAt | src/ts/si.ts:151-164 | the i-th program is decoded from the i-th 4-byte entry |
| TsSi.PATOf | src/ts/si.ts:139-174 | undefined exactly when the five fixed bytes are missing; otherwise the transport stream id, the section header fields and the program entries |
| TsSi.ReadPAT | src/ts/si.ts:139-174 | `readPAT` returns PATOf of its buffer |
| TsSi.ReadPrograms | src/ts/si.ts:151-164 | the loop collects Programs from the reader's offset |
| TsSi.ProgramRoundTrip | src/ts/si.ts:152-163 | an encoded program entry decodes back to the program |
| TsSi.EncodedProgramsAt | src/ts/si.ts:151-164 | in an encoded program list the i-th entry sits at byte 4 * i |
| TsSi.ProgramsRoundTrip | src/ts/si.ts:151-164 | an encoded program list followed by fewer than 4 bytes decodes to exactly its programs, in order |
| TsSi.CATOf | src/ts/si.ts:185-205 | undefined exactly when the five fixed bytes are missing, a throw exactly when the descriptors throw, otherwise the descriptors of the rest of the body |
| TsSi.ReadCAT | src/ts/si.ts:185-205 | `readCAT` returns CATOf of its buffer |
| TsSi.PMTStreamHeadAt | src/ts/si.ts:244-246 | a stream's fixed bytes give a 13-bit elementary PID and a 12-bit ES info length |
| TsSi.PMTStreamAt | src/ts/si.ts:243-256 | the stream loop stops when fewer than five bytes are left or the ES info overruns; otherwise the next stream starts after the ES info |
| TsSi.PMTOf | src/ts/si.ts:225-268 | undefined exactly when the nine fixed bytes or the program info are missing; otherwise a PMT exactly when the descriptors and the stream loop decode, with the 12-bit program number, the header, the 13-bit PCR PID, the program info and the streams read at their offsets |
| TsSi.ReadPMT | src/ts/si.ts:225-268 | `readPMT` returns PMTOf of its buffer |
| TsSi.ReadPMTStreams | src/ts/si.ts:242-256 | the stream loop collects PMTStreamsFrom from the reader's offset |
| TsSi.ReadPMTStream | src/ts/si.ts:244-255 | one turn of the stream loop reads PMTStreamAt and moves the reader past it |
| TsSi.ReadPMTStreamHead | src/ts/si.ts:244-246 | the five fixed bytes of a stream are PMTStreamHeadAt and the reader moves by five |
| TsSi.TransportStreamHeadAt | src/ts/si.ts:313-315 | a transport stream's fixed bytes give a 12-bit descriptor length |
| TsSi.TransportStreamAt | src/ts/si.ts:312-325 | the transport stream loop stops when fewer than six bytes are left or the descriptors overrun; otherwise the next one starts after them |
| TsSi.NITStreamsOf | src/ts/si.ts:307-325 | the loop length read with no bounds check throws when two bytes are missing, and an overrunning loop length is undefined |
| TsSi.ReadTransportStreamsIn | src/ts/si.ts:311-325 | a second reader over the loop's own bytes collects the transport streams and the outer reader moves past the loop |
| TsSi.NITOf | src/ts/si.ts:287-336 | undefined when the seven fixed bytes or the network descriptors are missing; otherwise a NIT exactly when the descriptors and the transport stream loop decode, "actual" exactly for table id 0x40, with the network id, header, network descriptors and streams read at their offsets |
| TsSi.NITLoopLengthUnchecked | src/ts/si.ts:305-307 | a body that ends right after the network descriptors throws on the loop length read |
| TsSi.ReadNIT | src/ts/si.ts:287-336 | `readNIT` returns NITOf of its table id and buffer |
| TsSi.ReadNITStreams | src/ts/si.ts:306-325 | the transport stream part of `readNIT` is NITStreamsOf |
| TsSi.ReadTransportStreams | src/ts/si.ts:312-325 | the loop collects TransportStreamsFrom from the reader's offset |
| TsSi.ReadTransportStream | src/ts/si.ts:313-324 | one turn of the loop reads TransportStreamAt and moves the reader past it |
| TsSi.ReadTransportStreamHead | src/ts/si.ts:313-315 | the six fixed bytes are TransportStreamHeadAt and the reader moves by six |
| TsSi.BroadcasterHeadAt | src/ts/si.ts:372-373 | a broadcaster's fixed bytes give its id and a 12-bit descriptor length |
| TsSi.BroadcasterAt | src/ts/si.ts:371-384 | the loop checks for three bytes but reads four, so exactly three bytes left throw; fewer, or overrunning descriptors, stop it |
| TsSi.BITOf | src/ts/si.ts:354-395 | undefined exactly when the seven fixed bytes or the first descriptors are missing; otherwise a BIT exactly when the descriptors and the broadcaster loop decode, with the network id, header, first descriptors and broadcasters read at their offsets |
| TsSi.ReadBIT | src/ts/si.ts:354-395 | `readBIT` returns BITOf of its buffer |
| TsSi.ReadBroadcasterLoop | src/ts/si.ts:370-384 | the loop collects BroadcastersFrom from the reader's offset |
| TsSi.ReadBroadcaster | src/ts/si.ts:372-383 | one turn of the loop reads BroadcasterAt and moves the reader past it |
| TsSi.ReadBroadcasterHead | src/ts/si.ts:372-373 | the four fixed bytes are BroadcasterHeadAt and the reader moves by four |
| TsSi.ServiceHeadAt | src/ts/si.ts:438-448 | a service's fixed bytes give a 3-bit running status and a 12-bit descriptor length |
| TsSi.ServiceAt | src/ts/si.ts:437-464 | the service loop stops when fewer than five bytes are left or the descriptors overrun; otherwise the next service starts after them |
| TsSi.SDTOf | src/ts/si.ts:420-475 | undefined exactly when the eight fixed bytes are missing; otherwise an SDT exactly when the service loop decodes, "actual" exactly for table id 0x42, with the stream id, header, network id and services read at their offsets |
| TsSi.SDTHeadOf | src/ts/si.ts:428-435 | the eight fixed bytes give the SDT header with "actual" exactly for 0x42 |
| TsSi.ReadSDT | src/ts/si.ts:420-475 | `readSDT` returns SDTOf of its table id and buffer |
| TsSi.ReadSDTHead | src/ts/si.ts:428-435 | the fixed part is SDTHeadOf and leaves the reader at byte 8 |
| TsSi.ReadServices | src/ts/si.ts:436-464 | the loop collects ServicesFrom from the reader's offset |
| TsSi.ReadService | src/ts/si.ts:438-463 | one turn of the loop reads ServiceAt and moves the reader past it |
| TsSi.ReadServiceHead | src/ts/si.ts:438-448 | the five fixed bytes are ServiceHeadAt and the reader moves by five |
| TsSi.StartTimeOf | src/ts/si.ts:536 | a start time of all ones bits is absent, any other is kept |
| TsSi.DurationOf | src/ts/si.ts:537 | a duration of all ones bits is absent, any other is kept |
| TsSi.EventHeadAt | src/ts/si.ts:523-529 | an event's fixed bytes give a 3-bit running status and a 12-bit descriptor length |
| TsSi.EventAt | src/ts/si.ts:522-542 | the event loop stops when fewer than twelve bytes are left or the descriptors overrun; otherwise the next event starts after them |
| TsSi.ScheduleBase | src/ts/si.ts:550-560 | the `<=` chain picks one of the four schedule range starts |
| TsSi.EITOf | src/ts/si.ts:506-597 | undefined exactly when the eleven fixed bytes are missing; otherwise an EIT exactly when the event loop decodes, with the fixed fields `EITHeadOf` reads (the kind, table index, `other` and last table index computed from the table id) and the events after byte 11 |
| TsSi.EITHeadOf | src/ts/si.ts:511-520 | the eleven fixed bytes and the table id give the EIT header with the computed indices |
| TsSi.ReadEIT | src/ts/si.ts:506-597 | `readEIT` returns EITOf of its table id and buffer |
| TsSi.ReadEITHead | src/ts/si.ts:511-520 | the fixed part is EITHeadOf and leaves the reader at byte 11 |
| TsSi.EITIndices | src/ts/si.ts:543-581 | the `tableIndex`, `other`, `lastTableIndex` chains and the `tableId` string agree with their specification functions |
| TsSi.EITTableIndexAsWritten | src/ts/si.ts:550-560 | as written, a schedule id gets its place inside its own range of eight only at a range start or in the last range; the others get an index from -7 to -1 |
| TsSi.EITOtherAsWritten | src/ts/si.ts:545-560 | `other` is set for 0x4f and every id past 0x58, so also for 0x59 to 0x5f |
| TsSi.EITKindRanges | src/ts/si.ts:576-581 | "p/f" for 0x4e and 0x4f, "schedule basic" exactly for the two basic ranges, "schedule extended" for the two extended ones |
| TsSi.ReadEvents | src/ts/si.ts:521-542 | the loop collects EventsFrom from the reader's offset |
| TsSi.ReadEvent | src/ts/si.ts:523-541 | one turn of the loop reads EventAt and moves the reader past it |
| TsSi.ReadEventHead | src/ts/si.ts:523-529 | the twelve fixed bytes are EventHeadAt and the reader moves by twelve |
| TsSi.DSMCCHeaderAt | src/ts/si.ts:609-649 | twelve bytes read with no bound check throw when missing; a message length below the adaptation length or past the buffer is undefined; otherwise the adaptation is present exactly when its length is not zero and the message is the rest of the message length |
| TsSi.AdaptationAt | src/ts/si.ts:625-627 | an adaptation field is present exactly when its length is not zero and holds one type byte and the rest as data |
| TsSi.ReadAdaptation | src/ts/si.ts:625-627 | reads AdaptationAt and moves past the adaptation length |
| TsSi.ReadDSMCCDownloadDataHeader | src/ts/si.ts:609-649 | `readDSMCCDownloadDataHeader` returns DSMCCHeaderAt at the reader's offset |
| TsSi.ReadDSMCCHead | src/ts/si.ts:612-618 | the twelve fixed bytes give the protocol discriminator, type, message id, transaction id, adaptation length and message length |
| TsSi.ModuleAt | src/ts/si.ts:729-745 | a module needs eight fixed bytes and its module info length of bytes; its module info has exactly that length |
| TsSi.PrivateDataAt | src/ts/si.ts:747-754 | the private data needs a 16-bit length and that many bytes, and has that length |
| TsSi.ReadPrivateData | src/ts/si.ts:747-754 | reads PrivateDataAt at the reader's offset |
| TsSi.DIIMessageOf | src/ts/si.ts:707-771 | a message of fewer than eighteen bytes is undefined; a decoded DII keeps the table id extension, section header and download data header |
| TsSi.DIIFixedOf | src/ts/si.ts:711-717 | the eighteen fixed bytes of the message give a DII |
| TsSi.DIIOf | src/ts/si.ts:690-772 | a body of five to sixteen bytes throws in the header read; a decoded DII has the table id extension and section header of the first five bytes |
| TsSi.ReadDII | src/ts/si.ts:690-772 | `readDII` returns DIIOf of its buffer |
| TsSi.ReadDIIMessage | src/ts/si.ts:707-771 | the message part of `readDII` is DIIMessageOf |
| TsSi.ReadDIIFixed | src/ts/si.ts:711-717 | the fixed part is DIIFixedOf and the compatibility descriptor length, leaving the reader at byte 18 |
| TsSi.ReadModuleList | src/ts/si.ts:723-746 | the module list is ModuleListAt at the reader's offset |
| TsSi.ReadModules | src/ts/si.ts:728-746 | the counted loop reads the `numberOfModules` modules ModuleAt gives, or undefined at the first short one |
| TsSi.ReadModule | src/ts/si.ts:729-745 | one turn of the module loop reads ModuleAt and moves the reader past it |
| TsSi.ModuleListCount | src/ts/si.ts:726-746 | a module list that reads back holds exactly `numberOfModules` modules |
| TsSi.DDBOf | src/ts/si.ts:774-813 | a body of five to sixteen bytes throws in the header read; a decoded DDB has the table id extension and section header of the first five bytes |
| TsSi.ReadDDB | src/ts/si.ts:774-813 | `readDDB` returns DDBOf of its buffer |
| TsSi.NPTReferenceOf | src/ts/si.ts:864-887 | needs 18 bytes; the STC reference is 33 bits from one high bit and a word, the NPT reference is the next word less 2^32 exactly when the low bit of the word before is set, and the first byte splits into the indicator and a 7-bit content id |
| TsSi.GeneralEventTimeOf | src/ts/si.ts:908-934 | a time exactly for modes 0, 1, 2, 3 and 5; an NPT time fits 33 bits and a relative time 36 bits |
| TsSi.GeneralEventOf | src/ts/si.ts:900-946 | needs eleven bytes and a known time mode; the group id fits 12 bits, the message id is the 16-bit word at byte 9 and the private data is the rest |
| TsSi.StreamDescriptorOf | src/ts/si.ts:978-988 | a tag other than 0x17 and 0x40 throws; 0x17 gives an NPT reference |
| TsSi.ReadStreamDescriptor | src/ts/si.ts:976-991 | the tag switch returns StreamDescriptorOf |
| TsSi.ReadGeneralEvent | src/ts/si.ts:900-946 | `readGeneralEventDescriptor` returns GeneralEventOf |
| TsSi.ReadGeneralEventTime | src/ts/si.ts:908-931 | the time switch returns GeneralEventTimeOf and leaves the reader after the five time bytes |
| TsSi.ReadStreamDescriptors | src/ts/si.ts:967-994 | `readStreamDescriptors` returns StreamDescriptorsFrom from 0 |
| TsSi.StreamDescriptorsFromFrames | src/ts/si.ts:967-994 | the loop is the tag-and-length framing followed by decoding each frame by its tag |
| TsSi.UnknownStreamTagThrows | src/ts/si.ts:985-987 | one frame of an unknown tag anywhere makes the whole list throw |
| TsSi.StreamDescriptorsOfEncoded | src/ts/si.ts:967-994 | encoded frames followed by a trailer that cannot be a frame decode to exactly their stream descriptors |
| TsSi.StreamDescriptorSectionOf | src/ts/si.ts:826-850 | undefined exactly when the five fixed bytes are missing, a throw exactly when the stream descriptors throw; the data event id and group id fit 4 bits |
| TsSi.ReadStreamDescriptorSection | src/ts/si.ts:826-850 | `readStreamDescriptorSection` returns StreamDescriptorSectionOf |
| TsSi.TOTOf | src/ts/si.ts:1002-1018 | undefined exactly when the seven fixed bytes or the descriptors are missing; otherwise a TOT exactly when the descriptors decode, with the 40-bit JST time at the start and those descriptors |
| TsSi.ReadTOT | src/ts/si.ts:1002-1018 | `readTOT` returns TOTOf of its buffer |
| TsSi.CDTModuleAt | src/ts/si.ts:1061-1071 | the data module needs seven bytes and its data size of bytes; the logo id fits 9 bits, the version 12 bits, and the data has the size given |
| TsSi.ReadCDTModule | src/ts/si.ts:1061-1071 | reads CDTModuleAt at the reader's offset |
| TsSi.CDTOf | src/ts/si.ts:1040-1089 | undefined when fewer than ten bytes or when the descriptors overrun; throws exactly when the descriptors throw; otherwise a CDT exactly when the data module after the descriptors reads, with the download data id, header, network id, data type, descriptors and module at their offsets |
| TsSi.ReadCDT | src/ts/si.ts:1040-1089 | `readCDT` returns CDTOf of its buffer |
| TsSiDescriptor.DescriptorOf | src/ts/si-descriptor.ts:111-226 | a tag without a case reads as nothing, and only the extended broadcaster reader can throw |
| TsSiDescriptor.ReadDescriptor | src/ts/si-descriptor.ts:111-226 | the tag switch returns DescriptorOf of the tag and body |
| TsSiDescriptor.FrameAt | src/ts/si-descriptor.ts:104-110 | the loop stops exactly when a tag and length are not both left or the body overruns; otherwise the frame is the tag and the body of that length, and the next one starts after it |
| TsSiDescriptor.ReadFrame | src/ts/si-descriptor.ts:104-110 | one framing step reads FrameAt and moves the reader past the body |
| TsSiDescriptor.DescriptorsFromFrames | src/ts/si-descriptor.ts:101-231 | `readDescriptors` is the tag-and-length framing followed by the per-tag readers, in order |
| TsSiDescriptor.CollectAppend | src/ts/si-descriptor.ts:101-231 | the descriptors of two runs of frames are those of each, joined |
| TsSiDescriptor.SkippedFrame | src/ts/si-descriptor.ts:224-229 | a frame of unknown tag, or whose reader returns undefined, leaves no trace in the list |
| TsSiDescriptor.ThrownFrame | src/ts/si-descriptor.ts:101-231 | an exception in one reader ends the whole list, whatever comes before or after |
| TsSiDescriptor.EncodeFrame | src/ts/si-descriptor.ts:104-110 | an encoded descriptor is two bytes longer than its body |
| TsSiDescriptor.FrameWindow | src/ts/si-descriptor.ts:104-110 | an encoded frame is cut out again by the framing step |
| TsSiDescriptor.FramesStep | src/ts/si-descriptor.ts:104-110 | helper, one turn of the loop: one encoded frame comes first, before whatever the loop makes of the bytes after it |
| TsSiDescriptor.FramesOfLaidOut | src/ts/si-descriptor.ts:104-110 | frames laid out back to back are framed in order, followed by what comes after them |
| TsSiDescriptor.FramesRoundTrip | src/ts/si-descriptor.ts:104-110 | encoded descriptors followed by a trailer the loop stops at are framed back to exactly that list |
| TsSiDescriptor.DescriptorsOfEncoded | src/ts/si-descriptor.ts:101-231 | the descriptors of an encoded list are the readers' results on its bodies, in order; the trailer is dropped |
| TsSiDescriptor.ReadDescriptors | src/ts/si-descriptor.ts:101-231 | `readDescriptors` returns DescriptorsFrom of its buffer from 0 |
| TsSiDescriptor.ReadDescriptorsIn | src/ts/si.ts:241 | reading the descriptors of the next n bytes moves the reader by n and returns DescriptorsIn |
| TsDescriptors.CountedLength | src/ts/si-descriptor.ts:1272-1314 | a counted loop that completes has read exactly its count of items |
| TsDescriptors.CAOf | src/ts/si-descriptor.ts:241-255 | defined exactly for four bytes or more; the PID is 13 bits and the private data is the rest after four bytes |
| TsDescriptors.CARoundTrip | src/ts/si-descriptor.ts:241-255 | a CA system id, a PID under any reserved bits and private data read back, the reserved bits dropped |
| TsDescriptors.AccessControlOf | src/ts/si-descriptor.ts:271-288 | defined exactly for four bytes or more; a 3-bit transmission type and a 13-bit PID |
| TsDescriptors.AccessControlRoundTrip | src/ts/si-descriptor.ts:271-288 | the 16-bit word splits back into the transmission type and PID written into it |
| TsDescriptors.ContentAvailabilityOf | src/ts/si-descriptor.ts:407-426 | defined exactly for a non-empty body; the retention state fits 3 bits |
| TsDescriptors.StreamIdentifierOf | src/ts/si-descriptor.ts:433-443 | defined exactly for a non-empty body, whose first byte is the component tag |
| TsDescriptors.HierarchicalTransmissionOf | src/ts/si-descriptor.ts:451-460 | the reader has no return statement and yields undefined on every body |
| TsDescriptors.DataComponentOf | src/ts/si-descriptor.ts:468-480 | defined exactly for two bytes or more |
| TsDescriptors.DataComponentRoundTrip | src/ts/si-descriptor.ts:468-480 | a 16-bit data component id and the additional info read back |
| TsDescriptors.VideoDecodeControlOf | src/ts/si-descriptor.ts:489-501 | defined exactly for a non-empty body; the video encode format fits 4 bits |
| TsDescriptors.CAEMMTSOf | src/ts/si-descriptor.ts:511-527 | defined exactly for seven bytes or more |
| TsDescriptors.BroadcasterNameOf | src/ts/si-descriptor.ts:675-680 | the whole body is the name, for any length |
| TsDescriptors.ExtendedBroadcasterOf | src/ts/si-descriptor.ts:701-747 | broadcaster type 1 with fewer than four bytes throws on the unchecked reads; a decoded descriptor has the type of the high nibble and a terrestrial broadcaster part exactly for type 1 |
| TsDescriptors.ReadExtendedBroadcasterDescriptor | src/ts/si-descriptor.ts:701-747 | `readExtendedBroadcasterDescriptor` returns ExtendedBroadcasterOf |
| TsDescriptors.Broadcasters | src/ts/si-descriptor.ts:726-731 | the broadcaster loop reads exactly its count of entries |
| TsDescriptors.ReadBroadcasters | src/ts/si-descriptor.ts:722-731 | reads Broadcasters and moves three bytes per entry |
| TsDescriptors.ReadByteList | src/ts/si-descriptor.ts:718-720 | a loop of byte reads returns exactly the next n bytes and moves past them |
| TsDescriptors.ServiceRoundTrip | src/ts/si-descriptor.ts:756-781 | a service type, a provider name and a service name, each behind its length byte, read back whatever follows |
| TsDescriptors.LogoTransmissionOf | src/ts/si-descriptor.ts:864-905 | undefined exactly for an empty body, a transmission type other than 1, 2, 3, or a type 1 or 2 body too short; type 1 gives a 9-bit logo id and 12-bit version, type 2 a 9-bit logo id, type 3 the rest as the logo characters |
| TsDescriptors.LinkageOf | src/ts/si-descriptor.ts:916-934 | defined exactly for seven bytes or more; the private data is the rest |
| TsDescriptors.ShortEventRoundTrip | src/ts/si-descriptor.ts:943-968 | a language code, an event name and a text behind their length bytes read back |
| TsDescriptors.ComponentOf | src/ts/si-descriptor.ts:980-998 | defined exactly for six bytes or more; the stream content fits 4 bits and the text is the rest |
| TsDescriptors.AudioComponentOf | src/ts/si-descriptor.ts:1015-1049 | needs nine bytes, and twelve when the multi-lingual flag is set; the second language is there exactly when flagged, and the text is the rest |
| TsDescriptors.DataContentOf | src/ts/si-descriptor.ts:1061-1099 | a decoded descriptor's selector is the bytes its length byte covers |
| TsDescriptors.DataContentLayout | src/ts/si-descriptor.ts:1061-1099 | each field of the wire form sits where the reader reads it |
| TsDescriptors.DataContentRoundTrip | src/ts/si-descriptor.ts:1061-1099 | the data content descriptor reads its wire form back, whatever follows it |
| TsDescriptors.SeriesOf | src/ts/si-descriptor.ts:1335-1361 | defined exactly for eight bytes or more; episode numbers fit 12 bits and the series name is the rest |
| TsDescriptors.StuffingOf | src/ts/si-descriptor.ts:1474-1476 | a record with no fields, whatever the body |
| TsDescriptors.U16ListSpec | src/ts/si-descriptor.ts:307-309 | the loop reads one 16-bit word per whole two bytes, in order; a trailing odd byte is ignored |
| TsDescriptors.ReadUint16List | src/ts/si-descriptor.ts:307-309 | the loop returns U16List from the reader's offset |
| TsDescriptors.CAServiceOf | src/ts/si-descriptor.ts:298-317 | defined exactly for four bytes or more; one service id per whole two bytes after them |
| TsDescriptors.ReadCAServiceDescriptor | src/ts/si-descriptor.ts:298-317 | `readCAServiceDescriptor` returns CAServiceOf |
| TsDescriptors.TerrestrialDeliverySystemOf | src/ts/si-descriptor.ts:537-559 | defined exactly for two bytes or more; a 12-bit area code, 2-bit guard interval and mode, one frequency per whole two bytes after them |
| TsDescriptors.ReadTerrestrialDeliverySystemDescriptor | src/ts/si-descriptor.ts:537-559 | `readTerrestrialDeliverySystemDescriptor` returns TerrestrialDeliverySystemOf |
| TsDescriptors.PartialReceptionOf | src/ts/si-descriptor.ts:566-578 | always defined; one service id per whole two bytes |
| TsDescriptors.ReadPartialReceptionDescriptor | src/ts/si-descriptor.ts:566-578 | `readPartialReceptionDescriptor` returns PartialReceptionOf |
| TsDescriptors.CopyControlAps | src/ts/si-descriptor.ts:347-348 | the APS control data is present exactly when the copy control type is not zero |
| TsDescriptors.ComponentControlsSpec | src/ts/si-descriptor.ts:365-383 | each component control takes two bytes or more, and carries APS data exactly when its copy control type is not zero |
| TsDescriptors.DigitalCopyControlOf | src/ts/si-descriptor.ts:338-393 | APS data exactly for a non-zero copy control type, a maximum bit rate exactly when flagged, component controls exactly when flagged |
| TsDescriptors.ReadDigitalCopyControlDescriptor | src/ts/si-descriptor.ts:338-393 | `readDigitalCopyControlDescriptor` returns DigitalCopyControlOf |
| TsDescriptors.ReadComponentControls | src/ts/si-descriptor.ts:364-384 | the component control loop returns ComponentControlsFrom over its own reader |
| TsDescriptors.ServiceIdsAtSpec | src/ts/si-descriptor.ts:613-618 | n service ids are read exactly when 2n bytes are left, and use exactly those bytes |
| TsDescriptors.TSInformationOf | src/ts/si-descriptor.ts:592-631 | a decoded descriptor's name length is the high six bits of byte 1 and its remote control key id is byte 0 |
| TsDescriptors.ReadTSInformationDescriptor | src/ts/si-descriptor.ts:592-631 | `readTSInformationDescriptor` returns TSInformationOf |
| TsDescriptors.ReadTransmissionTypes | src/ts/si-descriptor.ts:606-624 | the transmission type loop returns TransmissionTypesAt, or undefined at the first short entry |
| TsDescriptors.ReadServiceIds | src/ts/si-descriptor.ts:613-618 | the service id loop returns ServiceIdsAt |
| TsDescriptors.TableParameterAt | src/ts/si-descriptor.ts:653-660 | a table parameter is its table id and a description; the next starts after the description length |
| TsDescriptors.TableParameterCut | src/ts/si-descriptor.ts:653-660 | a description longer than what is left becomes the last parameter, holding the rest of the body |
| TsDescriptors.SIParameterOf | src/ts/si-descriptor.ts:645-668 | defined exactly for three bytes or more |
| TsDescriptors.ReadSIParameterDescriptor | src/ts/si-descriptor.ts:645-668 | `readSIParameterDescriptor` returns SIParameterOf |
| TsDescriptors.ReadTableParameters | src/ts/si-descriptor.ts:653-661 | the parameter loop returns TableParameters from the reader's offset |
| TsDescriptors.ReadTableParameter | src/ts/si-descriptor.ts:654-660 | one turn of the loop reads TableParameterAt |
| TsDescriptors.CAContractInfoOf | src/ts/si-descriptor.ts:793-833 | a decoded descriptor has the component count and CA unit id of the nibbles of byte 2, and exactly that many components |
| TsDescriptors.ReadCAContractInfoDescriptor | src/ts/si-descriptor.ts:793-833 | `readCAContractInfoDescriptor` returns CAContractInfoOf |
| TsDescriptors.ContentItemsLength | src/ts/si-descriptor.ts:1115-1123 | one content item per whole two bytes |
| TsDescriptors.ReadContentDescriptor | src/ts/si-descriptor.ts:1112-1128 | `readContentDescriptor` returns ContentItems of its body |
| TsDescriptors.RatingsLength | src/ts/si-descriptor.ts:1143-1150 | one rating per whole four bytes; a trailing partial entry is ignored |
| TsDescriptors.ReadParentalRatingDescriptor | src/ts/si-descriptor.ts:1140-1155 | `readParentalRatingDescriptor` returns Ratings of its body |
| TsDescriptors.LocalTimeOffsetsLength | src/ts/si-descriptor.ts:1447-1463 | one offset per whole thirteen bytes |
| TsDescriptors.ReadLocalTimeOffsetDescriptor | src/ts/si-descriptor.ts:1444-1468 | `readLocalTimeOffsetDescriptor` returns LocalTimeOffsets of its body |
| TsDescriptors.GroupEvents | src/ts/si-descriptor.ts:1201-1207 | the event loop reads exactly its count of service and event id pairs |
| TsDescriptors.EventGroupSpec | src/ts/si-descriptor.ts:1189-1240 | defined exactly when the counted events fit; then exactly that many events, the group type of the high nibble, other-network events exactly for group types 4 and 5 and private data otherwise |
| TsDescriptors.ReadEventGroupDescriptor | src/ts/si-descriptor.ts:1189-1240 | `readEventGroupDescriptor` returns EventGroupOf |
| TsDescriptors.ReadOtherNetworkEvents | src/ts/si-descriptor.ts:1214-1225 | the other-network loop returns OtherNetworkEvents, one per whole eight bytes |
| TsDescriptors.ShortTextAt | src/ts/si-descriptor.ts:1300-1307 | a text is the bytes its length byte covers, and the next field starts after them |
| TsDescriptors.EventItemsBound | src/ts/si-descriptor.ts:1393-1411 | each item takes two length bytes or more |
| TsDescriptors.ExtendedEventOf | src/ts/si-descriptor.ts:1378-1428 | a decoded descriptor's items are those of the region its length byte covers |
| TsDescriptors.ReadExtendedEventDescriptor | src/ts/si-descriptor.ts:1378-1428 | `readExtendedEventDescriptor` returns ExtendedEventOf |
| TsDescriptors.ReadEventItems | src/ts/si-descriptor.ts:1391-1411 | the item loop returns EventItems over its own reader |
| TsDescriptors.ComponentGroupOf | src/ts/si-descriptor.ts:1260-1320 | a decoded descriptor has the group type of the top three bits and all its counted groups fit |
| TsDescriptors.ComponentGroupTruncated | src/ts/si-descriptor.ts:1260-1320 | any cut before the end of the groups makes the descriptor undefined, and a cut after it changes nothing |
| TsDescriptors.ReadComponentGroupDescriptor | src/ts/si-descriptor.ts:1260-1320 | `readComponentGroupDescriptor` returns ComponentGroupOf |
| TsDescriptors.ReadComponentGroups | src/ts/si-descriptor.ts:1271-1314 | the group loop reads the counted groups, or undefined at the first that does not fit |
| TsDescriptors.ReadComponentGroup | src/ts/si-descriptor.ts:1273-1313 | one group: GroupAt at the reader's offset |
| TsDescriptors.ReadGroupRate | src/ts/si-descriptor.ts:1296-1299 | the total bit rate byte, read only when flagged |
| TsDescriptors.ReadShortText | src/ts/si-descriptor.ts:1300-1307 | a text behind its length byte: ShortTextAt |
| TsDescriptors.ReadCAUnits | src/ts/si-descriptor.ts:1279-1295 | the CA unit loop reads the counted units, or undefined at the first that does not fit |
| TsDescriptors.ReadCAUnit | src/ts/si-descriptor.ts:1281-1294 | one CA unit: CAUnitAt at the reader's offset |
| Sections.SectionHeaderRoundTrip | src/mmt-si.ts:259-263 | an encoded section header with a 5-bit version reads back as that header, and its 3 bytes are inside the buffer |
| LocationInfo.LocationFound | src/mmt-general-location-info.ts:18-48 | an encoded well-formed location found anywhere in a buffer reads back as that location and ends right after its encoding |
| LocationInfo.UnlocatableAt | src/mmt-general-location-info.ts:18-48 | at the end of a buffer, no bytes, a type other than 0x00 and 0x02, or a known type cut short give no location |
| MmtSiDescriptor.ReachedLengthThrows | src/mmt-si-descriptor.ts:108-134 | a length field that does not fit, at any frame the loop reaches, makes the whole descriptor list throw, whatever came before |
| TlvSi.TLVDescriptorsThen | src/tlv-si.ts:121-163 | a run of frames with bodies of at least 2 bytes is read as their descriptors, and the loop then goes on after the run |
| MmtPackageWire.PLTRoundTrip | src/mmt-si.ts:1266-1296 | a count byte followed by exactly that many encoded packages reads back as the PLT of those packages, whatever follows |
| MmtPackageWire.PLTCutShort | src/mmt-si.ts:1273-1280 | a count above the encoded packages, followed by bytes too short for the next package id, stops the loop with the packages read so far |
| MmtPackageWire.PLTBadLocation | src/mmt-si.ts:1282-1285 | a count above the encoded packages, followed by a package id whose location cannot be read, makes the whole PLT undefined |
| MmtPackageWire.MPTRoundTrip | src/mmt-si.ts:1163-1244 | a mode, a package id, descriptor bytes, an asset count and exactly that many encoded assets read back as the MPT of those assets, whatever follows |
| MmtPackageWire.MPTCutShort | src/mmt-si.ts:1188-1205 | a count above the encoded assets, followed by bytes too short for the next asset's fixed fields and id, stops the loop with the assets read so far |
| MmtPackageWire.MPTBadLocation | src/mmt-si.ts:1209-1216 | a count above the encoded assets, followed by an asset whose announced locations run out on bytes that are not a location, makes the whole MPT undefined |
| MmtSiDataWire.DDMTRoundTrip | src/mmt-si.ts:861-934 | a session id, a section header, a base directory path and a count followed by that many encoded nodes, each with its files, read back as that DDMT, whatever follows |
| MmtSiDataWire.DAMTRoundTrip | src/mmt-si.ts:987-1112 | the DAMT's fixed fields, a count of MPUs, the encoded MPUs with their index items or node tags, and the component info read back as that DAMT, whatever follows |
| MmtSiWire.EITRoundTrip | src/mmt-si.ts:250-327 | the EIT's fixed fields followed by encoded events and fewer than 12 trailing bytes read back as that EIT, its kind and indexes taken from the table ids |
| MmtSiWire.SDTRoundTrip | src/mmt-si.ts:350-401 | the SDT's fixed fields followed by encoded services and fewer than 5 trailing bytes read back as that SDT, actual exactly for the actual table id |
| MmtSiWire.DataModuleRoundTrip | src/mmt-si.ts:450-460 | an encoded logo data module found anywhere in a buffer reads back as that module |
| MmtSiWire.CDTRoundTrip | src/mmt-si.ts:429-478 | the CDT's fixed fields, descriptor bytes and an encoded data module read back as that CDT, whatever follows |
| MmtSiWire.TOTRoundTrip | src/mmt-si.ts:486-505 | a 40-bit time, a descriptor length and the descriptor bytes read back as that TOT, whatever follows |
| MmtSiWire.EMTRoundTrip | src/mmt-si.ts:669-696 | a 4-bit data event id and a 12-bit group id in one word, a section header and descriptor bytes read back as that EMT |
| MmtSiWire.BITRoundTrip | src/mmt-si.ts:524-568 | the BIT's fixed fields, its first descriptors, encoded broadcasters and fewer than 3 trailing bytes read back as that BIT |
| MmtSiWire.AITRoundTrip | src/mmt-si.ts:603-656 | the AIT's fixed fields, common descriptors, and an application loop of encoded applications behind its 12-bit length read back as that AIT, whatever follows |
| TsSiWire.PMTRoundTrip | src/ts/si.ts:225-268 | the PMT's fixed fields, program info descriptors, encoded streams and fewer than 5 trailing bytes read back as that PMT |
| TsSiWire.NITRoundTrip | src/ts/si.ts:287-336 | the NIT's fixed fields, network descriptors, and a transport stream loop behind its 12-bit length read back as that NIT, actual exactly for the actual table id, whatever follows |
| TsSiWire.BITRoundTrip | src/ts/si.ts:354-395 | the BIT's fixed fields, its first descriptors, encoded broadcasters and fewer than 3 trailing bytes read back as that BIT |
| TsSiWire.SDTRoundTrip | src/ts/si.ts:420-475 | the SDT's fixed fields, encoded services and fewer than 5 trailing bytes read back as that SDT, actual exactly for the actual table id |
| TsSiWire.EITRoundTrip | src/ts/si.ts:506-597 | the EIT's fixed fields, encoded events and fewer than 12 trailing bytes read back as that EIT, its kind, indexes and other flag taken from the table ids |
| TsSiWire.TOTRoundTrip | src/ts/si.ts:1002-1018 | a 40-bit time, a descriptor length and the descriptor bytes read back as that TOT, whatever follows |
| TsSiWire.DataModuleRoundTrip | src/ts/si.ts:1061-1071 | an encoded logo data module found anywhere in a buffer reads back as that module |
| TsSiWire.CDTRoundTrip | src/ts/si.ts:1040-1089 | the CDT's fixed fields, descriptor bytes and an encoded data module read back as that CDT, whatever follows |
| TsDsmccWire.DSMCCHeaderRoundTrip | src/ts/si.ts:609-649 | a download data header with its adaptation field, written before a message, reads back as that header and message |
| TsDsmccWire.ModuleListRoundTrip | src/ts/si.ts:723-754 | a module count, the encoded modules and the private data behind its length read back as those modules and that private data |
| TsDsmccWire.DIIRoundTrip | src/ts/si.ts:690-772 | a DII written field by field reads back as that DII, whatever follows its message |
| TsDsmccWire.DDBRoundTrip | src/ts/si.ts:774-813 | a DDB written field by field reads back as that DDB, whatever follows its message |

## Left out

- `ntp64TimestampToDate` (src/ntp.ts) is not part of this model. It uses floating-point arithmetic and JavaScript `Date`.
- Callbacks are opaque listener identities. Their code, their exceptions and any re-entrant calls into the readers are not modelled; a dispatch is recorded as one invocation per listener.
- Exception propagation is modelled as a `thrown` result. It ends `push` with the state as it was at the throw (the TLV buffer already past the throwing packet; the TS buffer unsliced). The exception value itself is not modelled.
- No I/O: blocks are parameters of `Push`.
- `subarray` views and `slice` copies are both byte-sequence values. Nothing mutates the underlying buffers, so aliasing is not modelled.
- The `Uint16Array` view over the application boundary permission bitmap (src/mmt-si-descriptor.ts:1914) depends on platform endianness. The descriptor is not decoded (see below), so the bitmap stays raw bytes.
- Type-only files appear only as the datatypes the readers need: src/event.ts, src/ts/event.ts, src/mmt-header.ts and src/ts/packet.ts. Event kinds declared there but never dispatched are not listed.
- The compressed-IP context id and sequence number (src/index.ts:102-104) are computed and never used, so they are not modelled. Neither is the empty NTP branch (src/index.ts:95-97).
- The source has no code for compression-context caching, sequence-discontinuity detection, scramble counters or package statistics. None of these is modelled.
- MmtSiDescriptor.DescriptorOf: 25 of the MMT-SI descriptor tags are returned as `Unparsed(tag, body)` and not decoded field by field. This covers:
  - application service, video component, stream identifier and audio component;
  - target region and data component;
  - MPU extended timestamp, short event, extended event and content;
  - series, multimedia service info, MH service and CA contract info;
  - SI parameter, broadcaster name, service list and related broadcaster;
  - local time offset, CA service and application;
  - transport protocol, simple application location and application boundary and permission;
  - UTC-NPT reference.

  The reason is size. Each of these readers decodes the fields of one descriptor into its own record and shares no state with the rest of the demuxer. Each one would add a case to `DescriptorOf`, which is already the largest function in the model and is unfolded by every proof that reaches the descriptor loop.

  For these tags the model does not capture a reader returning `undefined` or raising a RangeError. So the lists, tables and events that hold them can differ from the source:
  - where the source drops a descriptor whose body is too short (for example the short event reader under 4 bytes, src/mmt-si-descriptor.ts:1105-1109), the model keeps it as `Unparsed`;
  - where the source throws out of the whole table (for example the related broadcaster reader on a short body, src/mmt-si-descriptor.ts:1597-1602), the model reads the table.
