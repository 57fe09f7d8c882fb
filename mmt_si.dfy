// MMT-SI messages (src/mmt-si.ts): `readMessages`, the PA, M2-section,
// M2-short-section, CA and data-transmission message readers, and the
// section tables they carry (MH-EIT, MH-SDT, MH-CDT, MH-TOT, MH-BIT, MH-AIT,
// EMT, CAT).  The PA tables, DDMT and DAMT live in their own modules.
module MmtSi {
  import opened Js
  import opened Decoding
  import opened Utils
  import opened Sections
  import opened MmtSiDescriptor
  import opened MmtSiTables
  import opened MmtSiData

  const MMT_SI_PA_MESSAGE := 0x0000
  const MMT_SI_M2_SECTION_MESSAGE := 0x8000
  const MMT_SI_CA_MESSAGE := 0x8001
  const MMT_SI_M2_SHORT_SECTION_MESSAGE := 0x8002
  const MMT_SI_DATA_TRANSMISSION_MESSAGE := 0x8003

  const MMT_SI_TABLE_ECM := 0x82
  const MMT_SI_TABLE_EMM := 0x84
  const MMT_SI_TABLE_EMM_MESSAGE := 0x85
  const MMT_SI_TABLE_CAT := 0x86
  const MMT_SI_TABLE_MH_EIT_PF := 0x8b
  const MMT_SI_TABLE_MH_EIT_SCHEDULE_BASIC_BEGIN := 0x8c
  const MMT_SI_TABLE_MH_EIT_SCHEDULE_BASIC_END := 0x93
  const MMT_SI_TABLE_MH_EIT_SCHEDULE_EXTENDED_BEGIN := 0x94
  const MMT_SI_TABLE_MH_EIT_SCHEDULE_EXTENDED_END := 0x9b
  const MMT_SI_TABLE_MH_AIT := 0x9c
  const MMT_SI_TABLE_MH_BIT := 0x9d
  const MMT_SI_TABLE_MH_SDTT := 0x9e
  const MMT_SI_TABLE_MH_SDT_ACTUAL := 0x9f
  const MMT_SI_TABLE_MH_SDT_OTHER := 0xa0
  const MMT_SI_TABLE_MH_TOT := 0xa1
  const MMT_SI_TABLE_MH_CDT := 0xa2
  const MMT_SI_TABLE_DDMT := 0xa3
  const MMT_SI_TABLE_DAMT := 0xa4
  const MMT_SI_TABLE_EMT := 0xa6

  datatype EITKind = PresentFollowing | ScheduleBasic | ScheduleExtended

  datatype MHEvent = MHEvent(
    eventId: nat,
    startTime: Option<nat>,
    duration: Option<nat>,
    runningStatus: nat,
    freeCAMode: bool,
    descriptors: seq<MMTSIDescriptor>)

  datatype MHService = MHService(
    serviceId: nat,
    eitUserDefinedFlags: nat,
    eitScheduleFlag: bool,
    eitPresentFollowingFlag: bool,
    runningStatus: nat,
    freeCAMode: bool,
    descriptors: seq<MMTSIDescriptor>)

  datatype DataModule = DataModule(logoType: nat, logoId: nat, logoVersion: nat, data: bytes)

  datatype MHBroadcaster = MHBroadcaster(broadcasterId: nat, broadcasterDescriptors: seq<MMTSIDescriptor>)

  datatype MHApplication = MHApplication(
    organizationId: nat,
    applicationId: nat,
    applicationControlCode: nat,
    applicationDescriptors: seq<MMTSIDescriptor>)

  /** The tables an M2 section message carries. */
  datatype M2Section =
    | EIT(kind: EITKind, tableIdNumber: nat, tableIndex: int, serviceId: nat, header: SectionHeader,
          tlvStreamId: nat, originalNetworkId: nat, segmentLastSectionNumber: nat,
          lastTableId: nat, lastTableIndex: int, events: seq<MHEvent>)
    | SDT(actual: bool, tlvStreamId: nat, header: SectionHeader, originalNetworkId: nat, services: seq<MHService>)
    | CDT(downloadDataId: nat, header: SectionHeader, originalNetworkId: nat, dataType: nat,
          descriptors: seq<MMTSIDescriptor>, dataModule: DataModule)
    | BIT(originalNetworkId: nat, header: SectionHeader, broadcastViewPropriety: bool,
          firstDescriptors: seq<MMTSIDescriptor>, broadcasters: seq<MHBroadcaster>)
    | AIT(applicationType: nat, header: SectionHeader, commonDescriptors: seq<MMTSIDescriptor>,
          applications: seq<MHApplication>)
    | EMT(dataEventId: nat, eventMessageGroupId: nat, header: SectionHeader, descriptors: seq<MMTSIDescriptor>)

  /** The one table of an M2 short section message. */
  datatype TimeOffsetTable = TOT(jstTime: nat, descriptors: seq<MMTSIDescriptor>)

  datatype ConditionalAccessTable = CAT(version: nat, descriptors: seq<MMTSIDescriptor>)

  datatype Message =
    | PAMessage(version: nat, tables: seq<MMTSITable>)
    | M2SectionMessage(version: nat, table: M2Section)
    | M2ShortSectionMessage(version: nat, shortTable: TimeOffsetTable)
    | CAMessage(version: nat, caTable: ConditionalAccessTable)
    | DataTransmissionMessage(version: nat, dataTable: DataTransmissionSection)

  // ---------------------------------------------------------------------
  // readMessages

  /** Whether a message id is one of the five known ones. */
  predicate KnownMessageId(id: nat)
  {
    id in {MMT_SI_PA_MESSAGE, MMT_SI_M2_SECTION_MESSAGE, MMT_SI_CA_MESSAGE,
           MMT_SI_M2_SHORT_SECTION_MESSAGE, MMT_SI_DATA_TRANSMISSION_MESSAGE}
  }

  /** The width of a known message's length field: 4 bytes for PA and data transmission, else 2. */
  function LengthFieldWidth(id: nat): (w: nat)
    ensures w == 2 || w == 4
  {
    if id == MMT_SI_PA_MESSAGE || id == MMT_SI_DATA_TRANSMISSION_MESSAGE then 4 else 2
  }

  /** The message reader for id, applied to its payload. */
  function MessageWith(id: nat, version: nat, payload: bytes): (r: Decoded<Message>)
    requires KnownMessageId(id)
    ensures r.Ok? && r.value.PAMessage? ==> id == MMT_SI_PA_MESSAGE
    ensures r.Ok? && r.value.M2SectionMessage? ==> id == MMT_SI_M2_SECTION_MESSAGE
    ensures r.Ok? && r.value.CAMessage? ==> id == MMT_SI_CA_MESSAGE
    ensures r.Ok? && r.value.M2ShortSectionMessage? ==> id == MMT_SI_M2_SHORT_SECTION_MESSAGE
    ensures r.Ok? && r.value.DataTransmissionMessage? ==> id == MMT_SI_DATA_TRANSMISSION_MESSAGE
    ensures r.Ok? ==> r.value.version == version
  {
    if id == MMT_SI_PA_MESSAGE then PAMessageOf(version, payload)
    else if id == MMT_SI_M2_SECTION_MESSAGE then M2SectionMessageOf(version, payload)
    else if id == MMT_SI_CA_MESSAGE then CAMessageOf(version, payload)
    else if id == MMT_SI_M2_SHORT_SECTION_MESSAGE then M2ShortSectionMessageOf(version, payload)
    else DataTransmissionMessageOf(version, payload)
  }

  /**
   * `readMessages`: the 16-bit message id, the version byte, a length field
   * whose width depends on the id, and that many payload bytes.  An unknown
   * id or a length that overruns gives undefined.
   */
  function MessageOf(b: bytes): (r: Decoded<Message>)
    ensures |b| < 3 ==> r.Undefined?
    ensures r.Ok? ==> |b| >= 3 && KnownMessageId(U16(b, 0)) && r.value.version == b[2]
    ensures r.Ok? ==> |b| >= 3 + LengthFieldWidth(U16(b, 0))
  {
    if |b| < 2 + 1 then Undefined
    else
      var id := U16(b, 0);
      if !KnownMessageId(id) then Undefined
      else
        var w := LengthFieldWidth(id);
        if |b| < 3 + w then Undefined
        else
          var length := if w == 4 then U32(b, 3) else U16(b, 3);
          if |b| < 3 + w + length then Undefined
          else MessageWith(id, b[2], b[3 + w..3 + w + length])
  }

  /** The bytes of a length field of width w holding n. */
  ghost function LengthField(w: nat, n: nat): (r: bytes)
    requires w == 2 || w == 4
    requires n < (if w == 4 then 0x1_0000_0000 else 0x1_0000)
    ensures |r| == w
  {
    if w == 4 then Be32(n) else Be16(n)
  }

  /** A message framed with its id, version and length reads back as its payload's reader's result. */
  lemma {:induction false} MessageRoundTrip(id: nat, version: byte, payload: bytes, rest: bytes)
    requires KnownMessageId(id)
    requires |payload| < (if LengthFieldWidth(id) == 4 then 0x1_0000_0000 else 0x1_0000)
    ensures MessageOf(Be16(id) + [version] + LengthField(LengthFieldWidth(id), |payload|) + payload + rest)
            == MessageWith(id, version, payload)
  {
    var w := LengthFieldWidth(id);
    var len := LengthField(w, |payload|);
    var b := Be16(id) + [version] + len + payload + rest;
    U16Shift([], Be16(id), [version] + len + payload + rest);
    assert Be16(id) + [version] + len + payload + rest == [] + Be16(id) + ([version] + len + payload + rest);
    assert b[2] == version;
    var pre := Be16(id) + [version];
    assert b == pre + len + (payload + rest);
    if w == 4 {
      U32Shift(pre, len, payload + rest);
    } else {
      U16Shift(pre, len, payload + rest);
    }
    assert b[3 + w..3 + w + |payload|] == payload;
  }

  // ---------------------------------------------------------------------
  // Section framing shared by the M2 section, M2 short section and data
  // transmission messages

  /** The table id and the section body without its CRC_32. */
  datatype SectionFrame = SectionFrame(tableId: nat, payload: bytes)

  /**
   * The three-byte section prefix: table id, then a 16-bit word whose top
   * bit is the section syntax indicator (which must equal `syntax`) and
   * whose low 12 bits are the section length.  The length must be
   * available and at least 4; the last four bytes are the CRC.
   */
  function SectionFrameOf(d: bytes, syntax: bool): (r: Option<SectionFrame>)
    ensures r.Some? <==> |d| >= 3 && (U16(d, 1) >= 0x8000) == syntax
                         && 4 <= U16(d, 1) % 0x1000 <= |d| - 3
    ensures r.Some? ==> r.value.tableId == d[0] && r.value.payload == d[3..3 + U16(d, 1) % 0x1000 - 4]
  {
    if |d| < 1 + 2 then None
    else
      var b1 := U16(d, 1);
      if (b1 >= 0x8000) != syntax then None
      else
        var sectionLength := b1 % 0x1000;
        if |d| < 3 + sectionLength || sectionLength < 4 then None
        else Some(SectionFrame(d[0], d[3..3 + sectionLength - 4]))
  }

  /**
   * A section written with any table id, the wanted syntax bit, any
   * reserved bits and a length that counts the CRC frames exactly its
   * payload, whatever follows it.
   */
  lemma {:induction false} SectionFrameRoundTrip(tableId: byte, syntax: bool, reserved: nat, payload: bytes, crc: bytes, rest: bytes)
    requires reserved < 8 && |crc| == 4 && |payload| + 4 < 0x1000
    ensures SectionFrameOf([tableId] + Be16((if syntax then 0x8000 else 0) + reserved * 0x1000 + |payload| + 4) + payload + crc + rest, syntax)
            == Some(SectionFrame(tableId, payload))
  {
    var word := (if syntax then 0x8000 else 0) + reserved * 0x1000 + |payload| + 4;
    var d := [tableId] + Be16(word) + payload + crc + rest;
    U16Shift([tableId], Be16(word), payload + crc + rest);
    assert d == [tableId] + Be16(word) + (payload + crc + rest);
    DivExact((if syntax then 8 else 0) + reserved, |payload| + 4, 0x1000);
    assert d[3..3 + |payload|] == payload;
  }

  // ---------------------------------------------------------------------
  // PA message

  /** `readPAMessage`: a table count (always 0 on air), its 4-byte entries, then `readTables`. */
  function PAMessageOf(version: nat, d: bytes): (r: Decoded<Message>)
    ensures !r.Undefined? <==> |d| >= 1 && |d| >= 1 + 4 * (d[0] as int)
    ensures r.Ok? ==> r.value.PAMessage? && r.value.version == version
                      && TablesFrom(d[1 + 4 * (d[0] as int)..], 0) == Ok(r.value.tables)
  {
    if |d| < 1 then Undefined
    else
      var numberOfTables := d[0] as int;
      if numberOfTables > 0 && |d| < 1 + numberOfTables * 4 then Undefined
      else
        var tables :- TablesFrom(d[1 + numberOfTables * 4..], 0);
        Ok(PAMessage(version, tables))
  }

  // ---------------------------------------------------------------------
  // M2 section message

  function M2SectionMessageOf(version: nat, d: bytes): (r: Decoded<Message>)
    ensures SectionFrameOf(d, true).None? ==> r.Undefined?
    ensures r.Ok? ==> SectionFrameOf(d, true).Some?
                      && r == M2Message(version, M2TableOf(SectionFrameOf(d, true).value.tableId,
                                                           SectionFrameOf(d, true).value.payload))
  {
    match SectionFrameOf(d, true)
    case None => Undefined
    case Some(f) => M2Message(version, M2TableOf(f.tableId, f.payload))
  }

  /** Wraps a decoded table as an M2 section message. */
  function M2Message(version: nat, table: Decoded<M2Section>): (r: Decoded<Message>)
    ensures r.Ok? <==> table.Ok?
    ensures r.Thrown? <==> table.Thrown?
    ensures r.Ok? ==> r.value == M2SectionMessage(version, table.value)
  {
    var t :- table;
    Ok(M2SectionMessage(version, t))
  }

  /**
   * The table dispatch of `readM2sectionMessage`.  SDTT and TOT reach no
   * reader here, and ECM, EMM and the EMM message give undefined.
   */
  function M2TableOf(tableId: nat, payload: bytes): (r: Decoded<M2Section>)
    ensures (tableId in {MMT_SI_TABLE_ECM, MMT_SI_TABLE_EMM, MMT_SI_TABLE_EMM_MESSAGE,
                         MMT_SI_TABLE_MH_SDTT, MMT_SI_TABLE_MH_TOT}) ==> r.Undefined?
    ensures r.Ok? && r.value.EIT? ==> MMT_SI_TABLE_MH_EIT_PF <= tableId <= MMT_SI_TABLE_MH_EIT_SCHEDULE_EXTENDED_END
    ensures r.Ok? && r.value.SDT? ==> tableId in {MMT_SI_TABLE_MH_SDT_ACTUAL, MMT_SI_TABLE_MH_SDT_OTHER}
    ensures r.Ok? && r.value.CDT? ==> tableId == MMT_SI_TABLE_MH_CDT
    ensures r.Ok? && r.value.BIT? ==> tableId == MMT_SI_TABLE_MH_BIT
    ensures r.Ok? && r.value.AIT? ==> tableId == MMT_SI_TABLE_MH_AIT
    ensures r.Ok? && r.value.EMT? ==> tableId == MMT_SI_TABLE_EMT
  {
    if MMT_SI_TABLE_MH_EIT_PF <= tableId <= MMT_SI_TABLE_MH_EIT_SCHEDULE_EXTENDED_END then EITOf(tableId, payload)
    else if tableId == MMT_SI_TABLE_MH_BIT then BITOf(payload)
    else if tableId == MMT_SI_TABLE_MH_SDT_ACTUAL || tableId == MMT_SI_TABLE_MH_SDT_OTHER then SDTOf(tableId, payload)
    else if tableId == MMT_SI_TABLE_MH_CDT then CDTOf(payload)
    else if tableId == MMT_SI_TABLE_MH_AIT then AITOf(payload)
    else if tableId == MMT_SI_TABLE_EMT then EMTOf(payload)
    else Undefined
  }

  // ---------------------------------------------------------------------
  // M2 short section, CA and data transmission messages

  /** `readM2shortSectionMessage`: section syntax 0, and only the TOT is read. */
  function M2ShortSectionMessageOf(version: nat, d: bytes): (r: Decoded<Message>)
    ensures r.Ok? ==> SectionFrameOf(d, false).Some? && SectionFrameOf(d, false).value.tableId == MMT_SI_TABLE_MH_TOT
                      && r.value.M2ShortSectionMessage? && r.value.version == version
                      && TOTOf(SectionFrameOf(d, false).value.payload) == Ok(r.value.shortTable)
  {
    match SectionFrameOf(d, false)
    case None => Undefined
    case Some(f) =>
      if f.tableId != MMT_SI_TABLE_MH_TOT then Undefined
      else
        var table :- TOTOf(f.payload);
        Ok(M2ShortSectionMessage(version, table))
  }

  /** `readCAMessage`: table id, table version, 16-bit length, payload; only the CAT is read. */
  function CAMessageOf(version: nat, d: bytes): (r: Decoded<Message>)
    ensures r.Ok? <==> |d| >= 4 && d[0] == MMT_SI_TABLE_CAT && |d| >= 4 + U16(d, 2)
                       && DescriptorsFrom(d[4..4 + U16(d, 2)], 0).Ok?
    ensures r.Ok? ==> r.value == CAMessage(version, CAT(d[1], DescriptorsFrom(d[4..4 + U16(d, 2)], 0).value))
  {
    if |d| < 1 + 1 + 2 then Undefined
    else
      var length := U16(d, 2);
      if |d| < 4 + length then Undefined
      else if d[0] != MMT_SI_TABLE_CAT then Undefined
      else
        var descriptors :- DescriptorsFrom(d[4..4 + length], 0);
        Ok(CAMessage(version, CAT(d[1], descriptors)))
  }

  /** `readDataTransmissionMessage`: section syntax 1, then the DDMT or the DAMT. */
  function DataTransmissionMessageOf(version: nat, d: bytes): (r: Decoded<Message>)
    ensures SectionFrameOf(d, true).None? ==> r.Undefined?
    ensures r.Ok? ==> SectionFrameOf(d, true).Some?
                      && SectionFrameOf(d, true).value.tableId in {MMT_SI_TABLE_DDMT, MMT_SI_TABLE_DAMT}
  {
    match SectionFrameOf(d, true)
    case None => Undefined
    case Some(f) =>
      if f.tableId == MMT_SI_TABLE_DDMT then
        var table :- DDMTOf(f.payload);
        Ok(DataTransmissionMessage(version, table))
      else if f.tableId == MMT_SI_TABLE_DAMT then
        var table :- DAMTOf(f.payload);
        Ok(DataTransmissionMessage(version, table))
      else Undefined
  }

  // ---------------------------------------------------------------------
  // MH-EIT

  /** The table name an EIT id gets. */
  function EITKindOf(tableId: nat): EITKind
  {
    if tableId == MMT_SI_TABLE_MH_EIT_PF then PresentFollowing
    else if tableId <= MMT_SI_TABLE_MH_EIT_SCHEDULE_BASIC_END then ScheduleBasic
    else ScheduleExtended
  }

  /**
   * The EIT table index: 0 for p/f, the distance from the first basic or
   * first extended schedule id otherwise.  It is applied to lastTableId
   * too, whatever that byte holds, so the result may be negative.
   */
  function TableIndex(tableId: nat): (i: int)
    ensures MMT_SI_TABLE_MH_EIT_PF <= tableId <= MMT_SI_TABLE_MH_EIT_SCHEDULE_EXTENDED_END ==> 0 <= i <= 7
  {
    if tableId == MMT_SI_TABLE_MH_EIT_PF then 0
    else if tableId <= MMT_SI_TABLE_MH_EIT_SCHEDULE_BASIC_END then tableId - MMT_SI_TABLE_MH_EIT_SCHEDULE_BASIC_BEGIN
    else tableId - MMT_SI_TABLE_MH_EIT_SCHEDULE_EXTENDED_BEGIN
  }

  /** The EIT table id with a given name and index. */
  function EITTableId(kind: EITKind, index: int): int
  {
    match kind
    case PresentFollowing => MMT_SI_TABLE_MH_EIT_PF
    case ScheduleBasic => MMT_SI_TABLE_MH_EIT_SCHEDULE_BASIC_BEGIN + index
    case ScheduleExtended => MMT_SI_TABLE_MH_EIT_SCHEDULE_EXTENDED_BEGIN + index
  }

  /** Name and index together identify an EIT table id, and every (name, index) pair in range names one. */
  lemma {:induction false} TableIndexRoundTrip(tableId: nat, kind: EITKind, index: int)
    requires MMT_SI_TABLE_MH_EIT_PF <= tableId <= MMT_SI_TABLE_MH_EIT_SCHEDULE_EXTENDED_END
    requires kind.PresentFollowing? ==> index == 0
    requires !kind.PresentFollowing? ==> 0 <= index <= 7
    ensures EITTableId(EITKindOf(tableId), TableIndex(tableId)) == tableId
    ensures EITKindOf(EITTableId(kind, index)) == kind && TableIndex(EITTableId(kind, index)) == index
  {
  }

  /** A start time of all ones means undefined. */
  function StartTimeOf(v: nat): (r: Option<nat>)
    ensures r.None? <==> v == 0xff_ffff_ffff
    ensures r.Some? ==> r.value == v
  {
    if v == 0xff_ffff_ffff then None else Some(v)
  }

  /** A duration of all ones means undefined. */
  function DurationOf(v: nat): (r: Option<nat>)
    ensures r.None? <==> v == 0xff_ffff
    ensures r.Some? ==> r.value == v
  {
    if v == 0xff_ffff then None else Some(v)
  }

  /** One event of the EIT loop at o: 12 fixed bytes, then its descriptors. */
  function EventAt(b: bytes, o: nat): (r: Step<MHEvent>)
    ensures r.Done? <==> |b| < o + 12 || |b| < o + 12 + U16(b, o + 10) % 0x1000
    ensures r.Read? ==> r.next == o + 12 + U16(b, o + 10) % 0x1000 <= |b|
    ensures !r.Undef?
  {
    if |b| < 2 + 5 + 3 + 2 + o then Done
    else
      var f := U16(b, o + 10);
      var length := f % 0x1000;
      var p := o + 12;
      if |b| < length + p then Done
      else EventStep(EventHeadAt(b, o), DescriptorsIn(b, p, length), p + length)
  }

  /** The 12 fixed bytes of an event at o, its descriptors still empty. */
  function EventHeadAt(b: bytes, o: nat): (e: MHEvent)
    requires o + 12 <= |b|
    ensures e.eventId == U16(b, o) && e.runningStatus < 8 && e.descriptors == []
    ensures e.startTime.Some? ==> e.startTime.value == U40(b, o + 2)
    ensures e.duration.Some? ==> e.duration.value == U24(b, o + 7)
  {
    var f := U16(b, o + 10);
    MHEvent(U16(b, o), StartTimeOf(U40(b, o + 2)), DurationOf(U24(b, o + 7)), f / 0x2000, f / 0x1000 % 2 == 1, [])
  }

  /** An event with its descriptor list's outcome, or the exception that list raised. */
  function EventStep(e: MHEvent, descriptors: Decoded<seq<MMTSIDescriptor>>, next: nat): (r: Step<MHEvent>)
    requires !descriptors.Undefined?
    ensures r.Read? || r.Throw?
    ensures r.Read? ==> r.next == next && r.value.eventId == e.eventId
  {
    if descriptors.Thrown? then Throw else Read(e.(descriptors := descriptors.value), next)
  }

  /** The EIT event loop from o: it runs while 12 bytes are left and stops at an overrunning descriptor loop. */
  function EventsFrom(b: bytes, o: nat): (r: Decoded<seq<MHEvent>>)
    ensures !r.Undefined?
    decreases |b| - o
  {
    match EventAt(b, o)
    case Done => Ok([])
    case Undef => Undefined
    case Throw => Thrown
    case Read(e, next) => Chain([e], EventsFrom(b, next))
  }

  /** `readMHEventInformationTable`: 11 fixed bytes, then the events. */
  function EITOf(tableId: nat, d: bytes): (r: Decoded<M2Section>)
    ensures r.Undefined? <==> |d| < 11
    ensures r.Ok? ==> r.value.EIT? && r.value.kind == EITKindOf(tableId) && r.value.tableIdNumber == tableId
                      && r.value.tableIndex == TableIndex(tableId) && r.value.lastTableId == d[10]
                      && r.value.lastTableIndex == TableIndex(d[10])
                      && r.value.serviceId == U16(d, 0) && r.value.header == SectionHeaderAt(d, 2)
                      && r.value.tlvStreamId == U16(d, 5) && r.value.originalNetworkId == U16(d, 7)
                      && r.value.segmentLastSectionNumber == d[9] && Ok(r.value.events) == EventsFrom(d, 11)
  {
    if |d| < 2 + 1 + 1 + 1 + 2 + 2 + 1 + 1 then Undefined
    else
      var events :- EventsFrom(d, 11);
      Ok(EIT(EITKindOf(tableId), tableId, TableIndex(tableId), U16(d, 0), SectionHeaderAt(d, 2),
             U16(d, 5), U16(d, 7), d[9], d[10], TableIndex(d[10]), events))
  }

  method ReadMHEventInformationTable(tableId: nat, buffer: bytes) returns (r: Decoded<M2Section>)
    ensures r == EITOf(tableId, buffer)
  {
    var reader := new BinaryReader(buffer, 0);
    if !reader.CanRead(2 + 1 + 1 + 1 + 2 + 2 + 1 + 1) {
      return Undefined;
    }
    var serviceId := reader.ReadUint16();
    var header := ReadSectionHeader(reader);
    var tlvStreamId := reader.ReadUint16();
    var originalNetworkId := reader.ReadUint16();
    var segmentLastSectionNumber := reader.ReadUint8();
    var lastTableId := reader.ReadUint8();
    var events :- ReadEvents(reader);
    r := Ok(EIT(EITKindOf(tableId), tableId, TableIndex(tableId), serviceId, header, tlvStreamId,
                originalNetworkId, segmentLastSectionNumber, lastTableId, TableIndex(lastTableId), events));
  }

  method ReadEvents(reader: BinaryReader) returns (r: Decoded<seq<MHEvent>>)
    requires reader.offset >= 0
    modifies reader
    ensures r == EventsFrom(reader.buffer, old(reader.offset))
  {
    ghost var b, o := reader.buffer, reader.offset;
    var events: seq<MHEvent> := [];
    ChainEmpty(EventsFrom(b, o));
    while reader.CanRead(2 + 5 + 3 + 2)
      invariant reader.buffer == b && reader.offset >= 0
      invariant Chain(events, EventsFrom(b, reader.offset)) == EventsFrom(b, o)
      decreases |b| - reader.offset
    {
      var step := ReadEvent(reader);
      if step.Throw? {
        return Thrown;
      }
      if !step.Read? {
        ChainDone(events);
        return Ok(events);
      }
      ChainAppend(events, step.value, EventsFrom(b, reader.offset));
      events := events + [step.value];
    }
    ChainDone(events);
    r := Ok(events);
  }

  method ReadEvent(reader: BinaryReader) returns (step: Step<MHEvent>)
    requires reader.offset >= 0 && reader.CanRead(12)
    modifies reader
    ensures step == EventAt(reader.buffer, old(reader.offset))
    ensures step.Read? ==> reader.offset == step.next
  {
    var head, descriptorsLoopLength := ReadEventHead(reader);
    if !reader.CanRead(descriptorsLoopLength) {
      return Done;
    }
    var descriptors := ReadDescriptorsIn(reader, descriptorsLoopLength);
    step := EventStep(head, descriptors, reader.offset);
  }

  method ReadEventHead(reader: BinaryReader) returns (head: MHEvent, descriptorsLoopLength: nat)
    requires reader.offset >= 0 && reader.CanRead(12)
    modifies reader
    ensures reader.offset == old(reader.offset) + 12
    ensures head == EventHeadAt(reader.buffer, old(reader.offset))
    ensures descriptorsLoopLength == U16(reader.buffer, old(reader.offset) + 10) % 0x1000
  {
    var eventId := reader.ReadUint16();
    var startTime := reader.ReadUint40();
    var duration := reader.ReadUint24();
    var f := reader.ReadUint16();
    var runningStatus := f / 0x2000;
    var freeCAMode := f / 0x1000 % 2 == 1;
    descriptorsLoopLength := f % 0x1000;
    head := MHEvent(eventId, StartTimeOf(startTime), DurationOf(duration), runningStatus, freeCAMode, []);
  }

  // ---------------------------------------------------------------------
  // MH-SDT

  /** One service of the SDT loop at o: 5 fixed bytes, then its descriptors. */
  function ServiceAt(b: bytes, o: nat): (r: Step<MHService>)
    ensures r.Done? <==> |b| < o + 5 || |b| < o + 5 + U16(b, o + 3) % 0x1000
    ensures r.Read? ==> r.next == o + 5 + U16(b, o + 3) % 0x1000 <= |b|
    ensures !r.Undef?
  {
    if |b| < 2 + 1 + 2 + o then Done
    else
      var flags := b[o + 2];
      var f := U16(b, o + 3);
      var length := f % 0x1000;
      var p := o + 5;
      if |b| < length + p then Done
      else ServiceStep(ServiceHeadAt(b, o), DescriptorsIn(b, p, length), p + length)
  }

  /** The 5 fixed bytes of a service at o, its descriptors still empty. */
  function ServiceHeadAt(b: bytes, o: nat): (s: MHService)
    requires o + 5 <= |b|
    ensures s.serviceId == U16(b, o) && s.eitUserDefinedFlags < 8 && s.runningStatus < 8 && s.descriptors == []
    ensures s.eitPresentFollowingFlag <==> b[o + 2] % 2 == 1
  {
    var flags := b[o + 2];
    var f := U16(b, o + 3);
    MHService(U16(b, o), flags / 0x20 % 8, flags / 2 % 2 == 1, flags % 2 == 1, f / 0x2000, f / 0x1000 % 2 == 1, [])
  }

  /** A service with its descriptor list's outcome, or the exception that list raised. */
  function ServiceStep(s: MHService, descriptors: Decoded<seq<MMTSIDescriptor>>, next: nat): (r: Step<MHService>)
    requires !descriptors.Undefined?
    ensures r.Read? || r.Throw?
    ensures r.Read? ==> r.next == next && r.value.serviceId == s.serviceId
  {
    if descriptors.Thrown? then Throw else Read(s.(descriptors := descriptors.value), next)
  }

  function ServicesFrom(b: bytes, o: nat): (r: Decoded<seq<MHService>>)
    ensures !r.Undefined?
    decreases |b| - o
  {
    match ServiceAt(b, o)
    case Done => Ok([])
    case Undef => Undefined
    case Throw => Thrown
    case Read(s, next) => Chain([s], ServicesFrom(b, next))
  }

  /** `readMHServiceDescriptionTable`: 8 fixed bytes (one reserved), then the services. */
  function SDTOf(tableId: nat, d: bytes): (r: Decoded<M2Section>)
    ensures r.Undefined? <==> |d| < 8
    ensures r.Ok? ==> r.value.SDT? && (r.value.actual <==> tableId == MMT_SI_TABLE_MH_SDT_ACTUAL)
                      && r.value.tlvStreamId == U16(d, 0) && r.value.header == SectionHeaderAt(d, 2)
                      && r.value.originalNetworkId == U16(d, 5) && Ok(r.value.services) == ServicesFrom(d, 8)
  {
    if |d| < 2 + 1 + 1 + 1 + 2 + 1 then Undefined
    else
      var services :- ServicesFrom(d, 8);
      Ok(SDT(tableId == MMT_SI_TABLE_MH_SDT_ACTUAL, U16(d, 0), SectionHeaderAt(d, 2), U16(d, 5), services))
  }

  method ReadMHServiceDescriptionTable(tableId: nat, buffer: bytes) returns (r: Decoded<M2Section>)
    ensures r == SDTOf(tableId, buffer)
  {
    var reader := new BinaryReader(buffer, 0);
    if !reader.CanRead(2 + 1 + 1 + 1 + 2 + 1) {
      return Undefined;
    }
    var tlvStreamId := reader.ReadUint16();
    var header := ReadSectionHeader(reader);
    var originalNetworkId := reader.ReadUint16();
    reader.Skip(1);
    var services :- ReadServices(reader);
    r := Ok(SDT(tableId == MMT_SI_TABLE_MH_SDT_ACTUAL, tlvStreamId, header, originalNetworkId, services));
  }

  method ReadServices(reader: BinaryReader) returns (r: Decoded<seq<MHService>>)
    requires reader.offset >= 0
    modifies reader
    ensures r == ServicesFrom(reader.buffer, old(reader.offset))
  {
    ghost var b, o := reader.buffer, reader.offset;
    var services: seq<MHService> := [];
    ChainEmpty(ServicesFrom(b, o));
    while reader.CanRead(2 + 1 + 2)
      invariant reader.buffer == b && reader.offset >= 0
      invariant Chain(services, ServicesFrom(b, reader.offset)) == ServicesFrom(b, o)
      decreases |b| - reader.offset
    {
      var step := ReadService(reader);
      if step.Throw? {
        return Thrown;
      }
      if !step.Read? {
        ChainDone(services);
        return Ok(services);
      }
      ChainAppend(services, step.value, ServicesFrom(b, reader.offset));
      services := services + [step.value];
    }
    ChainDone(services);
    r := Ok(services);
  }

  method ReadService(reader: BinaryReader) returns (step: Step<MHService>)
    requires reader.offset >= 0 && reader.CanRead(5)
    modifies reader
    ensures step == ServiceAt(reader.buffer, old(reader.offset))
    ensures step.Read? ==> reader.offset == step.next
  {
    var head, descriptorsLoopLength := ReadServiceHead(reader);
    if !reader.CanRead(descriptorsLoopLength) {
      return Done;
    }
    var descriptors := ReadDescriptorsIn(reader, descriptorsLoopLength);
    step := ServiceStep(head, descriptors, reader.offset);
  }

  method ReadServiceHead(reader: BinaryReader) returns (head: MHService, descriptorsLoopLength: nat)
    requires reader.offset >= 0 && reader.CanRead(5)
    modifies reader
    ensures reader.offset == old(reader.offset) + 5
    ensures head == ServiceHeadAt(reader.buffer, old(reader.offset))
    ensures descriptorsLoopLength == U16(reader.buffer, old(reader.offset) + 3) % 0x1000
  {
    var serviceId := reader.ReadUint16();
    var flags := reader.ReadUint8();
    var eitUserDefinedFlags := flags / 0x20 % 8;
    var eitScheduleFlag := flags / 2 % 2 == 1;
    var eitPresentFollowingFlag := flags % 2 == 1;
    var f := reader.ReadUint16();
    var runningStatus := f / 0x2000;
    var freeCAMode := f / 0x1000 % 2 == 1;
    descriptorsLoopLength := f % 0x1000;
    head := MHService(serviceId, eitUserDefinedFlags, eitScheduleFlag, eitPresentFollowingFlag,
                      runningStatus, freeCAMode, []);
  }

  // ---------------------------------------------------------------------
  // MH-CDT, MH-TOT, EMT (straight-line readers)

  /**
   * `readMHCommonDataTable`: 10 fixed bytes, the descriptor loop, then the
   * data module.  The descriptors are read before the module header is
   * checked, so an exception there wins over a short module.
   */
  function CDTOf(d: bytes): (r: Decoded<M2Section>)
    ensures |d| < 10 || |d| < 10 + U16(d, 8) % 0x1000 ==> r.Undefined?
    ensures r.Thrown? <==> 10 <= |d| && 10 + U16(d, 8) % 0x1000 <= |d| && DescriptorsIn(d, 10, U16(d, 8) % 0x1000).Thrown?
    ensures r.Ok? <==> 10 <= |d| && 10 + U16(d, 8) % 0x1000 <= |d| && DescriptorsIn(d, 10, U16(d, 8) % 0x1000).Ok?
                       && DataModuleAt(d, 10 + U16(d, 8) % 0x1000).Some?
    ensures r.Ok? ==> var n := U16(d, 8) % 0x1000;
      r.value == CDT(U16(d, 0), SectionHeaderAt(d, 2), U16(d, 5), d[7], DescriptorsIn(d, 10, n).value,
                     DataModuleAt(d, 10 + n).value)
  {
    if |d| < 2 + 1 + 1 + 1 + 2 + 1 + 2 then Undefined
    else
      var length := U16(d, 8) % 0x1000;
      if |d| < 10 + length then Undefined
      else
        var descriptors :- DescriptorsIn(d, 10, length);
        match DataModuleAt(d, 10 + length)
        case None => Undefined
        case Some(dataModule) => Ok(CDT(U16(d, 0), SectionHeaderAt(d, 2), U16(d, 5), d[7], descriptors, dataModule))
  }

  /**
   * The data module of a CDT at p: logo type, 9-bit logo id, 12-bit logo
   * version and a 16-bit data size, then that many bytes of data.
   */
  function DataModuleAt(d: bytes, p: nat): (r: Option<DataModule>)
    ensures r.Some? <==> p + 7 <= |d| && p + 7 + U16(d, p + 5) <= |d|
    ensures r.Some? ==> r.value.logoId < 0x200 && r.value.logoVersion < 0x1000 && |r.value.data| == U16(d, p + 5)
  {
    if |d| < p + 1 + 2 + 2 + 2 then None
    else
      var dataSize := U16(d, p + 5);
      if |d| < p + 7 + dataSize then None
      else Some(DataModule(d[p], U16(d, p + 1) % 0x200, U16(d, p + 3) % 0x1000, d[p + 7..p + 7 + dataSize]))
  }

  /** `readMHTimeOffsetTable`: the 40-bit JST time, then a 12-bit descriptor loop length and the loop. */
  function TOTOf(d: bytes): (r: Decoded<TimeOffsetTable>)
    ensures r.Undefined? <==> |d| < 7 || |d| < 7 + U16(d, 5) % 0x1000
    ensures r.Ok? ==> r.value.jstTime == U40(d, 0)
                      && DescriptorsFrom(d[7..7 + U16(d, 5) % 0x1000], 0) == Ok(r.value.descriptors)
  {
    if |d| < 5 + 2 then Undefined
    else
      var length := U16(d, 5) % 0x1000;
      if |d| < 7 + length then Undefined
      else
        var descriptors :- DescriptorsFrom(d[7..7 + length], 0);
        Ok(TOT(U40(d, 0), descriptors))
  }

  /**
   * `readEventMessageTable`: data event id and group id share a 16-bit
   * word, and the descriptors are the rest from offset 5, though 7 bytes
   * were required.
   */
  function EMTOf(d: bytes): (r: Decoded<M2Section>)
    ensures r.Undefined? <==> |d| < 7
    ensures r.Ok? ==> r.value.EMT? && r.value.dataEventId < 16 && r.value.eventMessageGroupId < 0x1000
                      && r.value.dataEventId * 0x1000 + r.value.eventMessageGroupId == U16(d, 0)
                      && r.value.header == SectionHeaderAt(d, 2)
                      && DescriptorsFrom(d[5..], 0) == Ok(r.value.descriptors)
  {
    if |d| < 2 + 1 + 1 + 1 + 2 then Undefined
    else
      var h := U16(d, 0);
      var descriptors :- DescriptorsFrom(d[5..], 0);
      Ok(EMT(h / 0x1000, h % 0x1000, SectionHeaderAt(d, 2), descriptors))
  }

  // ---------------------------------------------------------------------
  // MH-BIT

  /**
   * One broadcaster of the BIT loop at o.  Its descriptor length is not
   * checked: `subarray` clamps it, and the next broadcaster starts after
   * the declared length, possibly past the end.
   */
  function BroadcasterAt(b: bytes, o: nat): (r: Step<MHBroadcaster>)
    ensures r.Done? <==> |b| < o + 3
    ensures r.Read? ==> r.next >= o + 3
    ensures !r.Undef?
  {
    if |b| < 1 + 2 + o then Done
    else
      var length := U16(b, o + 1) % 0x1000;
      var p := o + 3;
      BroadcasterOf(b[o], DescriptorsIn(b, p, length), p + length)
  }

  /** A broadcaster with its descriptor list's outcome, or the exception that list raised. */
  function BroadcasterOf(broadcasterId: nat, descriptors: Decoded<seq<MMTSIDescriptor>>, next: nat): (r: Step<MHBroadcaster>)
    requires !descriptors.Undefined?
    ensures r.Read? || r.Throw?
    ensures r.Read? ==> r.next == next && r.value.broadcasterId == broadcasterId
  {
    if descriptors.Thrown? then Throw else Read(MHBroadcaster(broadcasterId, descriptors.value), next)
  }

  function BroadcastersFrom(b: bytes, o: nat): (r: Decoded<seq<MHBroadcaster>>)
    ensures !r.Undefined?
    decreases |b| - o
  {
    match BroadcasterAt(b, o)
    case Done => Ok([])
    case Undef => Undefined
    case Throw => Thrown
    case Read(x, next) => Chain([x], if next <= |b| then BroadcastersFrom(b, next) else Ok([]))
  }

  /** `readMHBroadcasterInformationTable`: 7 fixed bytes, the first descriptors, then the broadcasters. */
  function BITOf(d: bytes): (r: Decoded<M2Section>)
    ensures r.Undefined? <==> |d| < 7 || |d| < 7 + U16(d, 5) % 0x1000
    ensures r.Ok? ==> r.value.BIT? && r.value.originalNetworkId == U16(d, 0)
                      && r.value.header == SectionHeaderAt(d, 2)
                      && r.value.broadcastViewPropriety == (U16(d, 5) / 0x1000 % 2 == 1)
                      && Ok(r.value.broadcasters) == BroadcastersFrom(d, 7 + U16(d, 5) % 0x1000)
  {
    if |d| < 2 + 1 + 1 + 1 + 2 then Undefined
    else
      var f := U16(d, 5);
      var length := f % 0x1000;
      if |d| < 7 + length then Undefined
      else
        var firstDescriptors :- DescriptorsFrom(d[7..7 + length], 0);
        var broadcasters :- BroadcastersFrom(d, 7 + length);
        Ok(BIT(U16(d, 0), SectionHeaderAt(d, 2), f / 0x1000 % 2 == 1, firstDescriptors, broadcasters))
  }

  method ReadMHBroadcasterInformationTable(buffer: bytes) returns (r: Decoded<M2Section>)
    ensures r == BITOf(buffer)
  {
    var reader := new BinaryReader(buffer, 0);
    if !reader.CanRead(2 + 1 + 1 + 1 + 2) {
      return Undefined;
    }
    var originalNetworkId := reader.ReadUint16();
    var header := ReadSectionHeader(reader);
    var f := reader.ReadUint16();
    var broadcastViewPropriety := f / 0x1000 % 2 == 1;
    var firstDescriptorsLength := f % 0x1000;
    if !reader.CanRead(firstDescriptorsLength) {
      return Undefined;
    }
    var first := reader.Subarray(firstDescriptorsLength);
    var firstDescriptors :- ReadMMTSIDescriptors(first);
    var broadcasters :- ReadBroadcasters(reader);
    r := Ok(BIT(originalNetworkId, header, broadcastViewPropriety, firstDescriptors, broadcasters));
  }

  method ReadBroadcasters(reader: BinaryReader) returns (r: Decoded<seq<MHBroadcaster>>)
    requires 0 <= reader.offset <= |reader.buffer|
    modifies reader
    ensures r == BroadcastersFrom(reader.buffer, old(reader.offset))
  {
    ghost var b, o := reader.buffer, reader.offset;
    var broadcasters: seq<MHBroadcaster> := [];
    ChainEmpty(BroadcastersFrom(b, o));
    while reader.CanRead(1 + 2)
      invariant reader.buffer == b && 0 <= reader.offset <= |b|
      invariant Chain(broadcasters, BroadcastersFrom(b, reader.offset)) == BroadcastersFrom(b, o)
      decreases |b| - reader.offset
    {
      var step := ReadBroadcaster(reader);
      if step.Throw? {
        return Thrown;
      }
      if reader.offset > |reader.buffer| {
        // the clamped descriptor loop was the last: the loop condition fails
        ChainAppend(broadcasters, step.value, Ok([]));
        ChainDone(broadcasters + [step.value]);
        return Ok(broadcasters + [step.value]);
      }
      ChainAppend(broadcasters, step.value, BroadcastersFrom(b, reader.offset));
      broadcasters := broadcasters + [step.value];
    }
    ChainDone(broadcasters);
    r := Ok(broadcasters);
  }

  method ReadBroadcaster(reader: BinaryReader) returns (step: Step<MHBroadcaster>)
    requires reader.offset >= 0 && reader.CanRead(3)
    modifies reader
    ensures step == BroadcasterAt(reader.buffer, old(reader.offset))
    ensures step.Read? ==> reader.offset == step.next
  {
    var broadcasterId := reader.ReadUint8();
    var length := reader.ReadUint16();
    var descriptors := ReadDescriptorsIn(reader, length % 0x1000);
    step := BroadcasterOf(broadcasterId, descriptors, reader.offset);
  }

  // ---------------------------------------------------------------------
  // MH-AIT

  /** One application of the AIT loop at o: 9 fixed bytes and its descriptors, which must fit. */
  function ApplicationAt(b: bytes, o: nat): (r: Step<MHApplication>)
    ensures r.Done? <==> |b| < o + 9
    ensures r.Undef? <==> |b| >= o + 9 && |b| < o + 9 + U16(b, o + 7) % 0x1000
    ensures r.Read? ==> r.next == o + 9 + U16(b, o + 7) % 0x1000 <= |b|
  {
    if |b| < 2 + 4 + 1 + 2 + o then Done
    else
      var length := U16(b, o + 7) % 0x1000;
      var p := o + 9;
      if |b| < length + p then Undef
      else ApplicationStep(ApplicationHeadAt(b, o), DescriptorsIn(b, p, length), p + length)
  }

  /** The 9 fixed bytes of an application at o, its descriptors still empty. */
  function ApplicationHeadAt(b: bytes, o: nat): (a: MHApplication)
    requires o + 9 <= |b|
    ensures a.organizationId == U16(b, o) && a.applicationId == U32(b, o + 2)
    ensures a.applicationControlCode == b[o + 6] && a.applicationDescriptors == []
  {
    MHApplication(U16(b, o), U32(b, o + 2), b[o + 6], [])
  }

  /** An application with its descriptor list's outcome, or the exception that list raised. */
  function ApplicationStep(a: MHApplication, descriptors: Decoded<seq<MMTSIDescriptor>>, next: nat): (r: Step<MHApplication>)
    requires !descriptors.Undefined?
    ensures r.Read? || r.Throw?
    ensures r.Read? ==> r.next == next && r.value.applicationId == a.applicationId
  {
    if descriptors.Thrown? then Throw else Read(a.(applicationDescriptors := descriptors.value), next)
  }

  function ApplicationsFrom(b: bytes, o: nat): (r: Decoded<seq<MHApplication>>)
    decreases |b| - o
  {
    match ApplicationAt(b, o)
    case Done => Ok([])
    case Undef => Undefined
    case Throw => Thrown
    case Read(a, next) => Chain([a], ApplicationsFrom(b, next))
  }

  /**
   * `readMHApplicationInformationTable`: 7 fixed bytes, the common
   * descriptors, then an application loop length read without a bounds
   * check (2 bytes must remain or the DataView read throws), and the
   * applications inside that loop.
   */
  function AITOf(d: bytes): (r: Decoded<M2Section>)
    ensures |d| < 7 ==> r.Undefined?
    ensures r.Ok? ==> r.value.AIT? && r.value.applicationType == U16(d, 0) && r.value.header == SectionHeaderAt(d, 2)
  {
    if |d| < 2 + 1 + 1 + 1 + 2 then Undefined
    else
      var length := U16(d, 5) % 0x1000;
      if |d| < 7 + length then Undefined
      else
        var commonDescriptors :- DescriptorsFrom(d[7..7 + length], 0);
        AITApplicationsOf(d, 7 + length, AIT(U16(d, 0), SectionHeaderAt(d, 2), commonDescriptors, []))
  }

  /** The application loop of the AIT from q, completing the table t. */
  function AITApplicationsOf(d: bytes, q: nat, t: M2Section): (r: Decoded<M2Section>)
    requires t.AIT?
    ensures |d| < q + 2 ==> r.Thrown?
    ensures r.Ok? ==> r.value.AIT? && q + 2 + U16(d, q) % 0x1000 <= |d|
                      && ApplicationsIn(d, q + 2, U16(d, q) % 0x1000) == Ok(r.value.applications)
                      && r.value == t.(applications := r.value.applications)
  {
    if |d| < q + 2 then Thrown
    else
      var length := U16(d, q) % 0x1000;
      if |d| < q + 2 + length then Undefined
      else
        var applications :- ApplicationsIn(d, q + 2, length);
        Ok(t.(applications := applications))
  }

  method ReadMHApplicationInformationTable(buffer: bytes) returns (r: Decoded<M2Section>)
    ensures r == AITOf(buffer)
  {
    var reader := new BinaryReader(buffer, 0);
    if !reader.CanRead(2 + 1 + 1 + 1 + 2) {
      return Undefined;
    }
    var applicationType := reader.ReadUint16();
    var header := ReadSectionHeader(reader);
    var length := reader.ReadUint16();
    var commonDescriptorLength := length % 0x1000;
    if !reader.CanRead(commonDescriptorLength) {
      return Undefined;
    }
    var common := reader.Subarray(commonDescriptorLength);
    var commonDescriptors :- ReadMMTSIDescriptors(common);
    r := ReadApplicationLoop(reader, AIT(applicationType, header, commonDescriptors, []));
  }

  /** The unguarded loop length, the loop's own cursor, and the applications. */
  method ReadApplicationLoop(reader: BinaryReader, t: M2Section) returns (r: Decoded<M2Section>)
    requires t.AIT? && reader.offset >= 0
    modifies reader
    ensures r == AITApplicationsOf(reader.buffer, old(reader.offset), t)
  {
    if !reader.InView(2) {
      // DataView.getUint16 past the end
      return Thrown;
    }
    var length := reader.ReadUint16();
    var applicationLoopLength := length % 0x1000;
    if !reader.CanRead(applicationLoopLength) {
      return Undefined;
    }
    var applications :- ReadApplicationsIn(reader, applicationLoopLength);
    r := Ok(t.(applications := applications));
  }

  /** The application loop of n bytes at p, read with a cursor of its own. */
  function ApplicationsIn(b: bytes, p: int, n: int): (r: Decoded<seq<MHApplication>>)
  {
    ApplicationsFrom(Js.Slice(b, p, p + n), 0)
  }

  method ReadApplicationsIn(reader: BinaryReader, n: int) returns (r: Decoded<seq<MHApplication>>)
    modifies reader
    ensures reader.offset == old(reader.offset) + n
    ensures r == ApplicationsIn(reader.buffer, old(reader.offset), n)
  {
    var loop := reader.Subarray(n);
    var areader := new BinaryReader(loop, 0);
    r := ReadApplications(areader);
  }

  method ReadApplications(reader: BinaryReader) returns (r: Decoded<seq<MHApplication>>)
    requires reader.offset >= 0
    modifies reader
    ensures r == ApplicationsFrom(reader.buffer, old(reader.offset))
  {
    ghost var b, o := reader.buffer, reader.offset;
    var applications: seq<MHApplication> := [];
    ChainEmpty(ApplicationsFrom(b, o));
    while reader.CanRead(2 + 4 + 1 + 2)
      invariant reader.buffer == b && reader.offset >= 0
      invariant Chain(applications, ApplicationsFrom(b, reader.offset)) == ApplicationsFrom(b, o)
      decreases |b| - reader.offset
    {
      var step := ReadApplication(reader);
      if step.Throw? {
        return Thrown;
      }
      if !step.Read? {
        return Undefined;
      }
      ChainAppend(applications, step.value, ApplicationsFrom(b, reader.offset));
      applications := applications + [step.value];
    }
    ChainDone(applications);
    r := Ok(applications);
  }

  method ReadApplication(reader: BinaryReader) returns (step: Step<MHApplication>)
    requires reader.offset >= 0 && reader.CanRead(9)
    modifies reader
    ensures step == ApplicationAt(reader.buffer, old(reader.offset))
    ensures step.Read? ==> reader.offset == step.next
  {
    var head, applicationDescriptorsLength := ReadApplicationHead(reader);
    if !reader.CanRead(applicationDescriptorsLength) {
      return Undef;
    }
    var descriptors := ReadDescriptorsIn(reader, applicationDescriptorsLength);
    step := ApplicationStep(head, descriptors, reader.offset);
  }

  method ReadApplicationHead(reader: BinaryReader) returns (head: MHApplication, applicationDescriptorsLength: nat)
    requires reader.offset >= 0 && reader.CanRead(9)
    modifies reader
    ensures reader.offset == old(reader.offset) + 9
    ensures head == ApplicationHeadAt(reader.buffer, old(reader.offset))
    ensures applicationDescriptorsLength == U16(reader.buffer, old(reader.offset) + 7) % 0x1000
  {
    var organizationId := reader.ReadUint16();
    var applicationId := reader.ReadUint32();
    var applicationControlCode := reader.ReadUint8();
    var length := reader.ReadUint16();
    applicationDescriptorsLength := length % 0x1000;
    head := MHApplication(organizationId, applicationId, applicationControlCode, []);
  }
}
