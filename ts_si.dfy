// `readSection` of src/ts/si.ts and the table readers it dispatches to: the
// MPEG-2 PSI tables (PAT, CAT, PMT), the ARIB SI tables (NIT, BIT, SDT,
// EIT, TOT, CDT) and the DSM-CC sections of data broadcasting (DII, DDB and
// the stream descriptor section).  Each reader works on the section body
// that `readSection` cuts out between the 3-byte header and the CRC.
module TsSi {
  import opened Js
  import opened Decoding
  import opened Utils
  import opened Sections
  import opened TsDescriptors
  import opened TsSiDescriptor

  const TABLE_ID_PAT := 0x00
  const TABLE_ID_CAT := 0x01
  const TABLE_ID_PMT := 0x02
  const TABLE_ID_DSMCC_DII := 0x3b
  const TABLE_ID_DSMCC_DDB := 0x3c
  const TABLE_ID_DSMCC_STREAM_DESCRIPTOR := 0x3d
  const TABLE_ID_NIT_ACTUAL := 0x40
  const TABLE_ID_NIT_OTHER := 0x41
  const TABLE_ID_SDT_ACTUAL := 0x42
  const TABLE_ID_SDT_OTHER := 0x46
  const TABLE_ID_EIT_ACTUAL_PF := 0x4e
  const TABLE_ID_EIT_OTHER_PF := 0x4f
  const TABLE_ID_EIT_ACTUAL_SCHEDULE_BASIC_BEGIN := 0x50
  const TABLE_ID_EIT_ACTUAL_SCHEDULE_BASIC_END := 0x57
  const TABLE_ID_EIT_ACTUAL_SCHEDULE_EXTENDED_BEGIN := 0x58
  const TABLE_ID_EIT_ACTUAL_SCHEDULE_EXTENDED_END := 0x5f
  const TABLE_ID_EIT_OTHER_SCHEDULE_BASIC_BEGIN := 0x60
  const TABLE_ID_EIT_OTHER_SCHEDULE_BASIC_END := 0x67
  const TABLE_ID_EIT_OTHER_SCHEDULE_EXTENDED_BEGIN := 0x68
  const TABLE_ID_EIT_OTHER_SCHEDULE_EXTENDED_END := 0x6f
  const TABLE_ID_ST := 0x72
  const TABLE_ID_TOT := 0x73
  const TABLE_ID_SDTT := 0xc3
  const TABLE_ID_BIT := 0xc4
  const TABLE_ID_NBIT_MSG := 0xc5
  const TABLE_ID_NBIT_REF := 0xc6
  const TABLE_ID_LDT := 0xc7
  const TABLE_ID_CDT := 0xc8
  const TABLE_ID_ECM := 0x82
  const TABLE_ID_EMM := 0x84

  /** A PAT entry: program number 0 names the network PID, any other a PMT PID. */
  datatype Program =
    | NetworkProgram(networkPID: nat)
    | ProgramMap(programNumber: nat, programMapPID: nat)

  datatype PMTStream = PMTStream(streamType: nat, elementaryPID: nat, esInfo: seq<Descriptor>)

  datatype TransportStream = TransportStream(
    transportStreamId: nat,
    originalNetworkId: nat,
    transportDescriptors: seq<Descriptor>)

  datatype Broadcaster = Broadcaster(broadcasterId: nat, broadcasterDescriptors: seq<Descriptor>)

  datatype Service = Service(
    serviceId: nat,
    hEITFlag: bool,
    mEITFlag: bool,
    lEITFlag: bool,
    eitScheduleFlag: bool,
    eitPresentFollowingFlag: bool,
    runningStatus: nat,
    freeCAMode: bool,
    descriptors: seq<Descriptor>)

  /** The three `tableId` strings of an EIT: "EIT[p/f]", "EIT[schedule basic]", "EIT[schedule extended]". */
  datatype EITKind = PresentFollowing | ScheduleBasic | ScheduleExtended

  /** An event; a start time or duration of all ones bits is absent. */
  datatype EventInformation = EventInformation(
    eventId: nat,
    startTime: Option<nat>,
    duration: Option<nat>,
    runningStatus: nat,
    freeCAMode: bool,
    descriptors: seq<Descriptor>)

  datatype Adaptation = Adaptation(adaptationType: nat, adaptationData: bytes)

  datatype DSMCCDownloadDataHeader = DSMCCDownloadDataHeader(
    protocolDiscriminator: nat,
    dsmccType: nat,
    messageId: nat,
    transactionId: nat,
    adaptation: Option<Adaptation>)

  /** What `readDSMCCDownloadDataHeader` returns: the header and the message body after it. */
  datatype DSMCCMessage = DSMCCMessage(header: DSMCCDownloadDataHeader, message: bytes)

  datatype DSMCCModule = DSMCCModule(moduleId: nat, moduleSize: nat, moduleVersion: nat, moduleInfo: bytes)

  datatype GeneralEventTime =
    | Immediate
    | MJD(eventMessageMJDJSTTime: nat)
    | NPT(eventMessageNPT: nat)
    | Relative(eventMessageRelativeTime: nat)
    | MJDStreamTime(eventMessageMJDJSTTime: nat)

  datatype StreamDescriptor =
    | NPTReference(
        postDiscontinuityIndicator: bool,
        dsmContentId: nat,
        stcReference: nat,
        nptReference: int,
        scaleNumerator: int,
        scaleDenominator: int)
    | GeneralEvent(
        eventMessageGroupId: nat,
        time: GeneralEventTime,
        eventMessageType: nat,
        eventMessageId: nat,
        privateData: bytes)

  datatype CommonDataModule = CommonDataModule(logoType: nat, logoId: nat, logoVersion: nat, data: bytes)

  datatype Section =
    | PAT(transportStreamId: nat, header: SectionHeader, programs: seq<Program>)
    | CAT(header: SectionHeader, descriptors: seq<Descriptor>)
    | PMT(
        programNumber: nat,
        header: SectionHeader,
        pcrPID: nat,
        programInfo: seq<Descriptor>,
        streams: seq<PMTStream>)
    | NIT(
        actual: bool,
        networkId: nat,
        header: SectionHeader,
        networkDescriptors: seq<Descriptor>,
        transportStreams: seq<TransportStream>)
    | BIT(
        originalNetworkId: nat,
        header: SectionHeader,
        firstDescriptors: seq<Descriptor>,
        broadcasters: seq<Broadcaster>)
    | SDT(
        actual: bool,
        transportStreamId: nat,
        header: SectionHeader,
        originalNetworkId: nat,
        services: seq<Service>)
    | EIT(
        kind: EITKind,
        tableIdNumber: nat,
        tableIndex: int,
        other: bool,
        serviceId: nat,
        header: SectionHeader,
        transportStreamId: nat,
        originalNetworkId: nat,
        segmentLastSectionNumber: nat,
        lastTableId: nat,
        lastTableIndex: int,
        events: seq<EventInformation>)
    | DII(
        tableIdExtension: nat,
        header: SectionHeader,
        dsmccDownloadDataHeader: DSMCCDownloadDataHeader,
        downloadId: nat,
        blockSize: nat,
        windowSize: nat,
        ackPeriod: nat,
        tCDownloadWindow: nat,
        tCDownloadScenario: nat,
        modules: seq<DSMCCModule>,
        privateData: bytes)
    | DDB(
        tableIdExtension: nat,
        header: SectionHeader,
        dsmccDownloadDataHeader: DSMCCDownloadDataHeader,
        moduleId: nat,
        moduleVersion: nat,
        blockNumber: nat,
        blockData: bytes)
    | StreamDescriptorSection(
        dataEventId: nat,
        eventMessageGroupId: nat,
        header: SectionHeader,
        streamDescriptors: seq<StreamDescriptor>)
    | TOT(jstTime: nat, descriptors: seq<Descriptor>)
    | CDT(
        downloadDataId: nat,
        header: SectionHeader,
        originalNetworkId: nat,
        dataType: nat,
        descriptors: seq<Descriptor>,
        dataModule: CommonDataModule)

  /** The fixed part of a loop entry, read before its descriptors: the entry with no descriptors, and their length. */
  datatype Head<T> = Head(entry: T, length: nat)

  // ---------------------------------------------------------------------
  // PAT

  /** One 4-byte PAT entry at o: a program number and a 13-bit PID. */
  function ProgramAt(b: bytes, o: nat): (p: Program)
    requires o + 4 <= |b|
    ensures p.NetworkProgram? <==> U16(b, o) == 0
    ensures p.ProgramMap? ==> p.programNumber == U16(b, o) && p.programMapPID < 0x2000
    ensures p.NetworkProgram? ==> p.networkPID < 0x2000
  {
    var programNumber := U16(b, o);
    if programNumber == 0 then NetworkProgram(U16(b, o + 2) % 0x2000)
    else ProgramMap(programNumber, U16(b, o + 2) % 0x2000)
  }

  /** The program loop from o: one entry per whole 4 bytes. */
  function Programs(b: bytes, o: nat): (ps: seq<Program>)
    ensures |ps| == if |b| < o then 0 else (|b| - o) / 4
    decreases |b| - o
  {
    if |b| < o + 4 then [] else [ProgramAt(b, o)] + Programs(b, o + 4)
  }

  /** The i-th program comes from the i-th 4-byte entry. */
  lemma {:induction false} ProgramsAt(b: bytes, o: nat, i: nat)
    requires o + 4 * i + 4 <= |b|
    ensures i < |Programs(b, o)| && Programs(b, o)[i] == ProgramAt(b, o + 4 * i)
    decreases i
  {
    if i > 0 {
      ProgramsAt(b, o + 4, i - 1);
    }
  }

  /** `readPAT`: a transport stream id, the section header, then the programs. */
  function PATOf(d: bytes): (r: Decoded<Section>)
    ensures r.Undefined? <==> |d| < 5
    ensures r.Ok? ==> r.value.PAT? && r.value.transportStreamId == U16(d, 0) && r.value.header == SectionHeaderAt(d, 2)
                      && r.value.programs == Programs(d, 5)
  {
    if |d| < 2 + 1 + 1 + 1 then Undefined
    else Ok(PAT(U16(d, 0), SectionHeaderAt(d, 2), Programs(d, 5)))
  }

  method ReadPAT(buffer: bytes) returns (r: Decoded<Section>)
    ensures r == PATOf(buffer)
  {
    var reader := new BinaryReader(buffer, 0);
    if !reader.CanRead(2 + 1 + 1 + 1) {
      return Undefined;
    }
    var transportStreamId := reader.ReadUint16();
    var header := ReadSectionHeader(reader);
    var programs := ReadPrograms(reader);
    r := Ok(PAT(transportStreamId, header, programs));
  }

  method ReadPrograms(reader: BinaryReader) returns (programs: seq<Program>)
    requires reader.offset >= 0
    modifies reader
    ensures programs == Programs(reader.buffer, old(reader.offset))
  {
    ghost var b, o := reader.buffer, reader.offset;
    programs := [];
    while reader.CanRead(4)
      invariant reader.buffer == b && reader.offset >= 0
      invariant programs + Programs(b, reader.offset) == Programs(b, o)
      decreases |b| - reader.offset
    {
      ghost var start := reader.offset;
      var programNumber := reader.ReadUint16();
      var pid := reader.ReadUint16();
      var program;
      if programNumber == 0 {
        program := NetworkProgram(pid % 0x2000);
      } else {
        program := ProgramMap(programNumber, pid % 0x2000);
      }
      assert Programs(b, start) == [program] + Programs(b, reader.offset);
      ListStep(programs, program, Programs(b, reader.offset));
      programs := programs + [program];
    }
    assert programs + [] == programs;
  }

  // ---------------------------------------------------------------------
  // CAT

  /** `readCAT`: two reserved bytes, the section header, then descriptors to the end. */
  function CATOf(d: bytes): (r: Decoded<Section>)
    ensures r.Undefined? <==> |d| < 5
    ensures r.Thrown? <==> |d| >= 5 && DescriptorsFrom(d[5..], 0).Thrown?
    ensures r.Ok? ==> r.value.CAT? && DescriptorsFrom(d[5..], 0) == Ok(r.value.descriptors)
  {
    if |d| < 2 + 1 + 1 + 1 then Undefined
    else
      var descriptors :- DescriptorsFrom(d[5..], 0);
      Ok(CAT(SectionHeaderAt(d, 2), descriptors))
  }

  method ReadCAT(buffer: bytes) returns (r: Decoded<Section>)
    ensures r == CATOf(buffer)
  {
    var reader := new BinaryReader(buffer, 0);
    if !reader.CanRead(2 + 1 + 1 + 1) {
      return Undefined;
    }
    var _ := reader.ReadUint16();
    var header := ReadSectionHeader(reader);
    var rest := reader.SubarrayRest();
    assert rest == buffer[5..];
    var descriptors :- ReadDescriptors(rest);
    r := Ok(CAT(header, descriptors));
  }

  // ---------------------------------------------------------------------
  // PMT

  /** The fixed 5 bytes of an elementary stream at o: a stream type, a 13-bit PID and the ES info length. */
  function PMTStreamHeadAt(b: bytes, o: nat): (h: Head<PMTStream>)
    requires o + 5 <= |b|
    ensures h.length == U16(b, o + 3) % 0x1000 && h.entry.elementaryPID < 0x2000
  {
    Head(PMTStream(b[o], U16(b, o + 1) % 0x2000, []), U16(b, o + 3) % 0x1000)
  }

  /** One elementary stream at o: its fixed bytes, then its ES info, which must fit. */
  function PMTStreamAt(b: bytes, o: nat): (r: Step<PMTStream>)
    ensures !r.Undef?
    ensures r.Done? <==> |b| < o + 5 || |b| < o + 5 + U16(b, o + 3) % 0x1000
    ensures r.Read? ==> r.next == o + 5 + U16(b, o + 3) % 0x1000 <= |b| && r.value.elementaryPID < 0x2000
  {
    if |b| < o + 1 + 2 + 2 then Done
    else
      var h := PMTStreamHeadAt(b, o);
      if |b| < o + 5 + h.length then Done
      else PMTStreamRead(h, DescriptorsIn(b, o + 5, h.length), o + 5 + h.length)
  }

  /** A stream whose ES info was read; a descriptor that throws ends the table. */
  function PMTStreamRead(h: Head<PMTStream>, esInfo: Decoded<seq<Descriptor>>, next: nat): (r: Step<PMTStream>)
    ensures r.Read? <==> esInfo.Ok?
    ensures r.Read? ==> r == Read(h.entry.(esInfo := esInfo.value), next)
  {
    match esInfo
    case Ok(v) => Read(h.entry.(esInfo := v), next)
    case _ => Throw
  }

  /** The stream loop from o: it runs while 5 bytes remain and stops at a stream that overruns. */
  function PMTStreamsFrom(b: bytes, o: nat): (r: Decoded<seq<PMTStream>>)
    ensures !r.Undefined?
    decreases |b| - o
  {
    match PMTStreamAt(b, o)
    case Read(x, next) => Chain([x], PMTStreamsFrom(b, next))
    case Throw => Thrown
    case _ => Ok([])
  }

  /** `readPMT`: 9 fixed bytes, the program info descriptors, then the streams. */
  function PMTOf(d: bytes): (r: Decoded<Section>)
    ensures r.Undefined? <==> |d| < 9 || |d| < 9 + U16(d, 7) % 0x1000
    ensures r.Ok? <==> 9 <= |d| && 9 + U16(d, 7) % 0x1000 <= |d| && DescriptorsIn(d, 9, U16(d, 7) % 0x1000).Ok?
                       && PMTStreamsFrom(d, 9 + U16(d, 7) % 0x1000).Ok?
    ensures r.Ok? ==> var n := U16(d, 7) % 0x1000;
      r.value == PMT(U16(d, 0) % 0x1000, SectionHeaderAt(d, 2), U16(d, 5) % 0x2000,
                     DescriptorsIn(d, 9, n).value, PMTStreamsFrom(d, 9 + n).value)
  {
    if |d| < 2 + 1 + 1 + 1 + 2 + 2 then Undefined
    else
      var programInfoLength := U16(d, 7) % 0x1000;
      if |d| < 9 + programInfoLength then Undefined
      else
        var programInfo :- DescriptorsIn(d, 9, programInfoLength);
        var streams :- PMTStreamsFrom(d, 9 + programInfoLength);
        Ok(PMT(U16(d, 0) % 0x1000, SectionHeaderAt(d, 2), U16(d, 5) % 0x2000, programInfo, streams))
  }

  method ReadPMT(buffer: bytes) returns (r: Decoded<Section>)
    ensures r == PMTOf(buffer)
  {
    var reader := new BinaryReader(buffer, 0);
    if !reader.CanRead(2 + 1 + 1 + 1 + 2 + 2) {
      return Undefined;
    }
    var programNumber := reader.ReadUint16();
    var header := ReadSectionHeader(reader);
    var pcrPID := reader.ReadUint16();
    var programInfoLength := reader.ReadUint16();
    assert reader.buffer == buffer && reader.offset == 9 && programInfoLength == U16(buffer, 7);
    if !reader.CanRead(programInfoLength % 0x1000) {
      return Undefined;
    }
    var programInfo :- ReadDescriptorsIn(reader, programInfoLength % 0x1000);
    var streams :- ReadPMTStreams(reader);
    r := Ok(PMT(programNumber % 0x1000, header, pcrPID % 0x2000, programInfo, streams));
  }

  method ReadPMTStreams(reader: BinaryReader) returns (r: Decoded<seq<PMTStream>>)
    requires reader.offset >= 0
    modifies reader
    ensures r == PMTStreamsFrom(reader.buffer, old(reader.offset))
  {
    ghost var b, o := reader.buffer, reader.offset;
    var streams: seq<PMTStream> := [];
    ChainEmpty(PMTStreamsFrom(b, o));
    while reader.CanRead(1 + 2 + 2)
      invariant reader.buffer == b && reader.offset >= 0
      invariant Chain(streams, PMTStreamsFrom(b, reader.offset)) == PMTStreamsFrom(b, o)
      decreases |b| - reader.offset
    {
      var step := ReadPMTStream(reader);
      if step.Throw? {
        return Thrown;
      }
      if step.Done? {
        ChainDone(streams);
        return Ok(streams);
      }
      ChainAppend(streams, step.value, PMTStreamsFrom(b, reader.offset));
      streams := streams + [step.value];
    }
    ChainDone(streams);
    r := Ok(streams);
  }

  method ReadPMTStream(reader: BinaryReader) returns (step: Step<PMTStream>)
    requires reader.offset >= 0 && reader.CanRead(5)
    modifies reader
    ensures step == PMTStreamAt(reader.buffer, old(reader.offset))
    ensures step.Read? ==> reader.offset == step.next
  {
    var h := ReadPMTStreamHead(reader);
    if !reader.CanRead(h.length) {
      return Done;
    }
    var esInfo := ReadDescriptorsIn(reader, h.length);
    step := PMTStreamRead(h, esInfo, reader.offset);
  }

  method ReadPMTStreamHead(reader: BinaryReader) returns (h: Head<PMTStream>)
    requires reader.offset >= 0 && reader.CanRead(5)
    modifies reader
    ensures reader.offset == old(reader.offset) + 5
    ensures h == PMTStreamHeadAt(reader.buffer, old(reader.offset))
  {
    var streamType := reader.ReadUint8();
    var elementaryPID := reader.ReadUint16();
    var esInfoLength := reader.ReadUint16();
    h := Head(PMTStream(streamType, elementaryPID % 0x2000, []), esInfoLength % 0x1000);

  }

  // ---------------------------------------------------------------------
  // NIT

  /** The fixed 6 bytes of a transport stream at o: its two ids and the descriptor length. */
  function TransportStreamHeadAt(b: bytes, o: nat): (h: Head<TransportStream>)
    requires o + 6 <= |b|
    ensures h.length == U16(b, o + 4) % 0x1000
  {
    Head(TransportStream(U16(b, o), U16(b, o + 2), []), U16(b, o + 4) % 0x1000)
  }

  /** One transport stream at o: its fixed bytes, then its descriptors, which must fit. */
  function TransportStreamAt(b: bytes, o: nat): (r: Step<TransportStream>)
    ensures !r.Undef?
    ensures r.Done? <==> |b| < o + 6 || |b| < o + 6 + U16(b, o + 4) % 0x1000
    ensures r.Read? ==> r.next == o + 6 + U16(b, o + 4) % 0x1000 <= |b|
  {
    if |b| < o + 2 + 2 + 2 then Done
    else
      var h := TransportStreamHeadAt(b, o);
      if |b| < o + 6 + h.length then Done
      else TransportStreamRead(h, DescriptorsIn(b, o + 6, h.length), o + 6 + h.length)
  }

  function TransportStreamRead(h: Head<TransportStream>, ds: Decoded<seq<Descriptor>>, next: nat): (r: Step<TransportStream>)
    ensures r.Read? <==> ds.Ok?
    ensures r.Read? ==> r == Read(h.entry.(transportDescriptors := ds.value), next)
  {
    match ds
    case Ok(v) => Read(h.entry.(transportDescriptors := v), next)
    case _ => Throw
  }

  function TransportStreamsFrom(b: bytes, o: nat): (r: Decoded<seq<TransportStream>>)
    ensures !r.Undefined?
    decreases |b| - o
  {
    match TransportStreamAt(b, o)
    case Read(x, next) => Chain([x], TransportStreamsFrom(b, next))
    case Throw => Thrown
    case _ => Ok([])
  }

  /** The transport stream loop length field after the network descriptors, read without a bounds check. */
  function NITStreamsOf(d: bytes, q: nat): (r: Decoded<seq<TransportStream>>)
    ensures |d| < q + 2 ==> r.Thrown?
    ensures |d| >= q + 2 && |d| < q + 2 + U16(d, q) % 0x1000 ==> r.Undefined?
    ensures q + 2 <= |d| && q + 2 + U16(d, q) % 0x1000 <= |d| ==> r == TransportStreamsIn(d, q + 2, U16(d, q) % 0x1000)
  {
    if |d| < q + 2 then Thrown
    else
      var length := U16(d, q) % 0x1000;
      if |d| < q + 2 + length then Undefined
      else TransportStreamsIn(d, q + 2, length)
  }

  /** The transport stream loop in the n bytes from p, walked by a reader of its own. */
  function TransportStreamsIn(b: bytes, p: int, n: int): Decoded<seq<TransportStream>>
  {
    TransportStreamsFrom(Js.Slice(b, p, p + n), 0)
  }

  method ReadTransportStreamsIn(reader: BinaryReader, n: int) returns (r: Decoded<seq<TransportStream>>)
    modifies reader
    ensures reader.offset == old(reader.offset) + n
    ensures r == TransportStreamsIn(reader.buffer, old(reader.offset), n)
  {
    var loop := reader.Subarray(n);
    var treader := new BinaryReader(loop, 0);
    r := ReadTransportStreams(treader);
  }

  /**
   * `readNIT`: 7 fixed bytes, the network descriptors, then a transport
   * stream loop that a second reader walks over its own buffer.
   */
  function NITOf(tableId: nat, d: bytes): (r: Decoded<Section>)
    ensures |d| < 7 || |d| < 7 + U16(d, 5) % 0x1000 ==> r.Undefined?
    ensures r.Ok? <==> 7 <= |d| && 7 + U16(d, 5) % 0x1000 <= |d| && DescriptorsIn(d, 7, U16(d, 5) % 0x1000).Ok?
                       && NITStreamsOf(d, 7 + U16(d, 5) % 0x1000).Ok?
    ensures r.Ok? ==> var n := U16(d, 5) % 0x1000;
      r.value == NIT(tableId == TABLE_ID_NIT_ACTUAL, U16(d, 0), SectionHeaderAt(d, 2),
                     DescriptorsIn(d, 7, n).value, NITStreamsOf(d, 7 + n).value)
  {
    if |d| < 2 + 1 + 1 + 1 + 2 then Undefined
    else
      var networkDescriptorLength := U16(d, 5) % 0x1000;
      if |d| < 7 + networkDescriptorLength then Undefined
      else
        var networkDescriptors :- DescriptorsIn(d, 7, networkDescriptorLength);
        var transportStreams :- NITStreamsOf(d, 7 + networkDescriptorLength);
        Ok(NIT(tableId == TABLE_ID_NIT_ACTUAL, U16(d, 0), SectionHeaderAt(d, 2), networkDescriptors, transportStreams))
  }

  /**
   * The transport stream loop length is read with no check after the
   * network descriptors, so a body that ends right after them throws.
   */
  lemma {:induction false} NITLoopLengthUnchecked(tableId: nat, d: bytes)
    requires 7 <= |d| && 7 + U16(d, 5) % 0x1000 <= |d| < 9 + U16(d, 5) % 0x1000
    requires DescriptorsIn(d, 7, U16(d, 5) % 0x1000).Ok?
    ensures NITOf(tableId, d).Thrown?
  {
  }

  method ReadNIT(tableId: nat, buffer: bytes) returns (r: Decoded<Section>)
    ensures r == NITOf(tableId, buffer)
  {
    var reader := new BinaryReader(buffer, 0);
    if !reader.CanRead(2 + 1 + 1 + 1 + 2) {
      return Undefined;
    }
    var networkId := reader.ReadUint16();
    var header := ReadSectionHeader(reader);
    var f := reader.ReadUint16();
    var networkDescriptorLength := f % 0x1000;
    if !reader.CanRead(networkDescriptorLength) {
      return Undefined;
    }
    var networkDescriptors :- ReadDescriptorsIn(reader, networkDescriptorLength);
    var transportStreams :- ReadNITStreams(reader);
    r := Ok(NIT(tableId == TABLE_ID_NIT_ACTUAL, networkId, header, networkDescriptors, transportStreams));
  }

  method ReadNITStreams(reader: BinaryReader) returns (r: Decoded<seq<TransportStream>>)
    requires reader.offset >= 0
    modifies reader
    ensures r == NITStreamsOf(reader.buffer, old(reader.offset))
  {
    if !reader.InView(2) {
      // DataView.getUint16 past the end
      return Thrown;
    }
    var g := reader.ReadUint16();
    var transportStreamLoopLength := g % 0x1000;
    if !reader.CanRead(transportStreamLoopLength) {
      return Undefined;
    }
    r := ReadTransportStreamsIn(reader, transportStreamLoopLength);
  }

  method ReadTransportStreams(reader: BinaryReader) returns (r: Decoded<seq<TransportStream>>)
    requires reader.offset >= 0
    modifies reader
    ensures r == TransportStreamsFrom(reader.buffer, old(reader.offset))
  {
    ghost var b, o := reader.buffer, reader.offset;
    var streams: seq<TransportStream> := [];
    ChainEmpty(TransportStreamsFrom(b, o));
    while reader.CanRead(2 + 2 + 2)
      invariant reader.buffer == b && reader.offset >= 0
      invariant Chain(streams, TransportStreamsFrom(b, reader.offset)) == TransportStreamsFrom(b, o)
      decreases |b| - reader.offset
    {
      var step := ReadTransportStream(reader);
      if step.Throw? {
        return Thrown;
      }
      if step.Done? {
        ChainDone(streams);
        return Ok(streams);
      }
      ChainAppend(streams, step.value, TransportStreamsFrom(b, reader.offset));
      streams := streams + [step.value];
    }
    ChainDone(streams);
    r := Ok(streams);
  }

  method ReadTransportStream(reader: BinaryReader) returns (step: Step<TransportStream>)
    requires reader.offset >= 0 && reader.CanRead(6)
    modifies reader
    ensures step == TransportStreamAt(reader.buffer, old(reader.offset))
    ensures step.Read? ==> reader.offset == step.next
  {
    var h := ReadTransportStreamHead(reader);
    if !reader.CanRead(h.length) {
      return Done;
    }
    var transportDescriptors := ReadDescriptorsIn(reader, h.length);
    step := TransportStreamRead(h, transportDescriptors, reader.offset);
  }

  method ReadTransportStreamHead(reader: BinaryReader) returns (h: Head<TransportStream>)
    requires reader.offset >= 0 && reader.CanRead(6)
    modifies reader
    ensures reader.offset == old(reader.offset) + 6
    ensures h == TransportStreamHeadAt(reader.buffer, old(reader.offset))
  {
    var transportStreamId := reader.ReadUint16();
    var originalNetworkId := reader.ReadUint16();
    var f := reader.ReadUint16();
    h := Head(TransportStream(transportStreamId, originalNetworkId, []), f % 0x1000);

  }

  // ---------------------------------------------------------------------
  // BIT

  /** The fixed 4 bytes of a broadcaster at o: its id and the descriptor length. */
  function BroadcasterHeadAt(b: bytes, o: nat): (h: Head<Broadcaster>)
    requires o + 4 <= |b|
    ensures h.length == U16(b, o + 2) % 0x1000
  {
    Head(Broadcaster(U16(b, o), []), U16(b, o + 2) % 0x1000)
  }

  /**
   * One broadcaster at o.  The loop only checks for 3 bytes but reads two
   * 16-bit fields, so exactly 3 bytes left make the second read throw.
   */
  function BroadcasterAt(b: bytes, o: nat): (r: Step<Broadcaster>)
    ensures !r.Undef?
    ensures |b| == o + 3 ==> r.Throw?
    ensures r.Done? <==> |b| < o + 3 || (|b| >= o + 4 && |b| < o + 4 + U16(b, o + 2) % 0x1000)
    ensures r.Read? ==> r.next == o + 4 + U16(b, o + 2) % 0x1000 <= |b|
  {
    if |b| < o + 1 + 2 then Done
    else if |b| < o + 4 then Throw
    else
      var h := BroadcasterHeadAt(b, o);
      if |b| < o + 4 + h.length then Done
      else BroadcasterRead(h, DescriptorsIn(b, o + 4, h.length), o + 4 + h.length)
  }

  function BroadcasterRead(h: Head<Broadcaster>, ds: Decoded<seq<Descriptor>>, next: nat): (r: Step<Broadcaster>)
    ensures r.Read? <==> ds.Ok?
    ensures r.Read? ==> r == Read(h.entry.(broadcasterDescriptors := ds.value), next)
  {
    match ds
    case Ok(v) => Read(h.entry.(broadcasterDescriptors := v), next)
    case _ => Throw
  }

  function BroadcastersFrom(b: bytes, o: nat): (r: Decoded<seq<Broadcaster>>)
    ensures !r.Undefined?
    decreases |b| - o
  {
    match BroadcasterAt(b, o)
    case Read(x, next) => Chain([x], BroadcastersFrom(b, next))
    case Throw => Thrown
    case _ => Ok([])
  }

  /** `readBIT`: 7 fixed bytes, the first descriptors, then the broadcasters. */
  function BITOf(d: bytes): (r: Decoded<Section>)
    ensures r.Undefined? <==> |d| < 7 || |d| < 7 + U16(d, 5) % 0x1000
    ensures r.Ok? <==> 7 <= |d| && 7 + U16(d, 5) % 0x1000 <= |d| && DescriptorsIn(d, 7, U16(d, 5) % 0x1000).Ok?
                       && BroadcastersFrom(d, 7 + U16(d, 5) % 0x1000).Ok?
    ensures r.Ok? ==> var n := U16(d, 5) % 0x1000;
      r.value == BIT(U16(d, 0), SectionHeaderAt(d, 2), DescriptorsIn(d, 7, n).value, BroadcastersFrom(d, 7 + n).value)
  {
    if |d| < 2 + 1 + 1 + 1 + 2 then Undefined
    else
      var firstDescriptorsLength := U16(d, 5) % 0x1000;
      if |d| < 7 + firstDescriptorsLength then Undefined
      else
        var firstDescriptors :- DescriptorsIn(d, 7, firstDescriptorsLength);
        var broadcasters :- BroadcastersFrom(d, 7 + firstDescriptorsLength);
        Ok(BIT(U16(d, 0), SectionHeaderAt(d, 2), firstDescriptors, broadcasters))
  }

  method ReadBIT(buffer: bytes) returns (r: Decoded<Section>)
    ensures r == BITOf(buffer)
  {
    var reader := new BinaryReader(buffer, 0);
    if !reader.CanRead(2 + 1 + 1 + 1 + 2) {
      return Undefined;
    }
    var originalNetworkId := reader.ReadUint16();
    var header := ReadSectionHeader(reader);
    var f := reader.ReadUint16();
    var firstDescriptorsLength := f % 0x1000;
    if !reader.CanRead(firstDescriptorsLength) {
      return Undefined;
    }
    var firstDescriptors :- ReadDescriptorsIn(reader, firstDescriptorsLength);
    var broadcasters :- ReadBroadcasterLoop(reader);
    r := Ok(BIT(originalNetworkId, header, firstDescriptors, broadcasters));
  }

  method ReadBroadcasterLoop(reader: BinaryReader) returns (r: Decoded<seq<Broadcaster>>)
    requires reader.offset >= 0
    modifies reader
    ensures r == BroadcastersFrom(reader.buffer, old(reader.offset))
  {
    ghost var b, o := reader.buffer, reader.offset;
    var broadcasters: seq<Broadcaster> := [];
    ChainEmpty(BroadcastersFrom(b, o));
    while reader.CanRead(1 + 2)
      invariant reader.buffer == b && reader.offset >= 0
      invariant Chain(broadcasters, BroadcastersFrom(b, reader.offset)) == BroadcastersFrom(b, o)
      decreases |b| - reader.offset
    {
      var step := ReadBroadcaster(reader);
      if step.Throw? {
        return Thrown;
      }
      if step.Done? {
        ChainDone(broadcasters);
        return Ok(broadcasters);
      }
      ChainAppend(broadcasters, step.value, BroadcastersFrom(b, reader.offset));
      broadcasters := broadcasters + [step.value];
    }
    ChainDone(broadcasters);
    r := Ok(broadcasters);
  }

  method ReadBroadcaster(reader: BinaryReader) returns (step: Step<Broadcaster>)
    requires reader.offset >= 0 && reader.CanRead(3)
    modifies reader
    ensures step == BroadcasterAt(reader.buffer, old(reader.offset))
    ensures step.Read? ==> reader.offset == step.next
  {
    if !reader.InView(4) {
      // the second DataView.getUint16 runs past the end
      return Throw;
    }
    var h := ReadBroadcasterHead(reader);
    if !reader.CanRead(h.length) {
      return Done;
    }
    var descriptors := ReadDescriptorsIn(reader, h.length);
    step := BroadcasterRead(h, descriptors, reader.offset);
  }

  method ReadBroadcasterHead(reader: BinaryReader) returns (h: Head<Broadcaster>)
    requires reader.InView(4)
    modifies reader
    ensures reader.offset == old(reader.offset) + 4
    ensures h == BroadcasterHeadAt(reader.buffer, old(reader.offset))
  {
    var broadcasterId := reader.ReadUint16();
    var f := reader.ReadUint16();
    h := Head(Broadcaster(broadcasterId, []), f % 0x1000);

  }

  // ---------------------------------------------------------------------
  // SDT

  /** The fixed 5 bytes of a service at o: its id, the EIT flag byte and the status word. */
  function ServiceHeadAt(b: bytes, o: nat): (h: Head<Service>)
    requires o + 5 <= |b|
    ensures h.length == U16(b, o + 3) % 0x1000 && h.entry.runningStatus < 8
  {
    var f1 := b[o + 2];
    var f2 := U16(b, o + 3);
    Head(Service(U16(b, o), f1 / 0x10 % 2 == 1, f1 / 8 % 2 == 1, f1 / 4 % 2 == 1, f1 / 2 % 2 == 1, f1 % 2 == 1,
                 f2 / 0x2000, f2 / 0x1000 % 2 == 1, []), f2 % 0x1000)
  }

  /** One service at o: its fixed bytes, then its descriptors, which must fit. */
  function ServiceAt(b: bytes, o: nat): (r: Step<Service>)
    ensures !r.Undef?
    ensures r.Done? <==> |b| < o + 5 || |b| < o + 5 + U16(b, o + 3) % 0x1000
    ensures r.Read? ==> r.next == o + 5 + U16(b, o + 3) % 0x1000 <= |b| && r.value.runningStatus < 8
  {
    if |b| < o + 2 + 1 + 2 then Done
    else
      var h := ServiceHeadAt(b, o);
      if |b| < o + 5 + h.length then Done
      else ServiceRead(h, DescriptorsIn(b, o + 5, h.length), o + 5 + h.length)
  }

  function ServiceRead(h: Head<Service>, ds: Decoded<seq<Descriptor>>, next: nat): (r: Step<Service>)
    ensures r.Read? <==> ds.Ok?
    ensures r.Read? ==> r == Read(h.entry.(descriptors := ds.value), next)
  {
    match ds
    case Ok(v) => Read(h.entry.(descriptors := v), next)
    case _ => Throw
  }

  function ServicesFrom(b: bytes, o: nat): (r: Decoded<seq<Service>>)
    ensures !r.Undefined?
    decreases |b| - o
  {
    match ServiceAt(b, o)
    case Read(x, next) => Chain([x], ServicesFrom(b, next))
    case Throw => Thrown
    case _ => Ok([])
  }

  /** `readSDT`: 8 fixed bytes (the last one reserved), then the services. */
  function SDTOf(tableId: nat, d: bytes): (r: Decoded<Section>)
    ensures r.Undefined? <==> |d| < 8
    ensures r.Ok? <==> 8 <= |d| && ServicesFrom(d, 8).Ok?
    ensures r.Ok? ==> r.value == SDT(tableId == TABLE_ID_SDT_ACTUAL, U16(d, 0), SectionHeaderAt(d, 2), U16(d, 5),
                                     ServicesFrom(d, 8).value)
  {
    if |d| < 2 + 1 + 1 + 1 + 2 + 1 then Undefined
    else
      var services :- ServicesFrom(d, 8);
      Ok(SDTHeadOf(tableId, d).(services := services))
  }

  /** The SDT fields of its eight fixed bytes; the services follow them. */
  function SDTHeadOf(tableId: nat, d: bytes): (s: Section)
    requires 8 <= |d|
    ensures s.SDT? && (s.actual <==> tableId == TABLE_ID_SDT_ACTUAL)
  {
    SDT(tableId == TABLE_ID_SDT_ACTUAL, U16(d, 0), SectionHeaderAt(d, 2), U16(d, 5), [])
  }

  method ReadSDT(tableId: nat, buffer: bytes) returns (r: Decoded<Section>)
    ensures r == SDTOf(tableId, buffer)
  {
    var reader := new BinaryReader(buffer, 0);
    if !reader.CanRead(2 + 1 + 1 + 1 + 2 + 1) {
      return Undefined;
    }
    var sdt := ReadSDTHead(reader, tableId);
    var services :- ReadServices(reader);
    r := Ok(sdt.(services := services));
  }

  method ReadSDTHead(reader: BinaryReader, tableId: nat) returns (s: Section)
    requires reader.offset == 0 && reader.CanRead(8)
    modifies reader
    ensures reader.offset == 8
    ensures s == SDTHeadOf(tableId, reader.buffer)
  {
    var transportStreamId := reader.ReadUint16();
    var header := ReadSectionHeader(reader);
    var originalNetworkId := reader.ReadUint16();
    reader.Skip(1);
    s := SDT(tableId == TABLE_ID_SDT_ACTUAL, transportStreamId, header, originalNetworkId, []);
  }

  method ReadServices(reader: BinaryReader) returns (r: Decoded<seq<Service>>)
    requires reader.offset >= 0
    modifies reader
    ensures r == ServicesFrom(reader.buffer, old(reader.offset))
  {
    ghost var b, o := reader.buffer, reader.offset;
    var services: seq<Service> := [];
    ChainEmpty(ServicesFrom(b, o));
    while reader.CanRead(2 + 1 + 2)
      invariant reader.buffer == b && reader.offset >= 0
      invariant Chain(services, ServicesFrom(b, reader.offset)) == ServicesFrom(b, o)
      decreases |b| - reader.offset
    {
      var step := ReadService(reader);
      if step.Throw? {
        return Thrown;
      }
      if step.Done? {
        ChainDone(services);
        return Ok(services);
      }
      ChainAppend(services, step.value, ServicesFrom(b, reader.offset));
      services := services + [step.value];
    }
    ChainDone(services);
    r := Ok(services);
  }

  method ReadService(reader: BinaryReader) returns (step: Step<Service>)
    requires reader.offset >= 0 && reader.CanRead(5)
    modifies reader
    ensures step == ServiceAt(reader.buffer, old(reader.offset))
    ensures step.Read? ==> reader.offset == step.next
  {
    var h := ReadServiceHead(reader);
    if !reader.CanRead(h.length) {
      return Done;
    }
    var descriptors := ReadDescriptorsIn(reader, h.length);
    step := ServiceRead(h, descriptors, reader.offset);
  }

  method ReadServiceHead(reader: BinaryReader) returns (h: Head<Service>)
    requires reader.offset >= 0 && reader.CanRead(5)
    modifies reader
    ensures reader.offset == old(reader.offset) + 5
    ensures h == ServiceHeadAt(reader.buffer, old(reader.offset))
  {
    var serviceId := reader.ReadUint16();
    var f1 := reader.ReadUint8();
    var hEITFlag := f1 / 0x10 % 2 == 1;
    var mEITFlag := f1 / 8 % 2 == 1;
    var lEITFlag := f1 / 4 % 2 == 1;
    var eitScheduleFlag := f1 / 2 % 2 == 1;
    var eitPresentFollowingFlag := f1 % 2 == 1;
    var f2 := reader.ReadUint16();
    var runningStatus := f2 / 0x2000;
    var freeCAMode := f2 / 0x1000 % 2 == 1;
    h := Head(Service(serviceId, hEITFlag, mEITFlag, lEITFlag, eitScheduleFlag, eitPresentFollowingFlag,
                      runningStatus, freeCAMode, []), f2 % 0x1000);

  }

  // ---------------------------------------------------------------------
  // EIT

  /** A 40-bit start time of all ones bits is "undefined". */
  function StartTimeOf(startTime: nat): (r: Option<nat>)
    ensures r.None? <==> startTime == 0xff_ffff_ffff
    ensures r.Some? ==> r.value == startTime
  {
    if startTime == 0xff_ffff_ffff then None else Some(startTime)
  }

  /** A 24-bit duration of all ones bits is "undefined". */
  function DurationOf(duration: nat): (r: Option<nat>)
    ensures r.None? <==> duration == 0xff_ffff
    ensures r.Some? ==> r.value == duration
  {
    if duration == 0xff_ffff then None else Some(duration)
  }

  /** The fixed 12 bytes of an event at o: the event without descriptors, and their length. */
  function EventHeadAt(b: bytes, o: nat): (h: Head<EventInformation>)
    requires o + 12 <= |b|
    ensures h.length == U16(b, o + 10) % 0x1000 && h.entry.runningStatus < 8
  {
    var f := U16(b, o + 10);
    Head(EventInformation(U16(b, o), StartTimeOf(U40(b, o + 2)), DurationOf(U24(b, o + 7)), f / 0x2000, f / 0x1000 % 2 == 1, []),
         f % 0x1000)
  }

  /** One event at o: its fixed bytes, then its descriptors, which must fit. */
  function EventAt(b: bytes, o: nat): (r: Step<EventInformation>)
    ensures !r.Undef?
    ensures r.Done? <==> |b| < o + 12 || |b| < o + 12 + U16(b, o + 10) % 0x1000
    ensures r.Read? ==> r.next == o + 12 + U16(b, o + 10) % 0x1000 <= |b| && r.value.runningStatus < 8
  {
    if |b| < o + 2 + 5 + 3 + 2 then Done
    else
      var h := EventHeadAt(b, o);
      if |b| < o + 12 + h.length then Done
      else EventRead(h, DescriptorsIn(b, o + 12, h.length), o + 12 + h.length)
  }

  /** An event whose descriptors were read; a descriptor that throws ends the table. */
  function EventRead(h: Head<EventInformation>, ds: Decoded<seq<Descriptor>>, next: nat): (r: Step<EventInformation>)
    ensures r.Read? <==> ds.Ok?
    ensures r.Read? ==> r == Read(h.entry.(descriptors := ds.value), next)
  {
    match ds
    case Ok(v) => Read(h.entry.(descriptors := v), next)
    case _ => Throw
  }

  function EventsFrom(b: bytes, o: nat): (r: Decoded<seq<EventInformation>>)
    ensures !r.Undefined?
    decreases |b| - o
  {
    match EventAt(b, o)
    case Read(x, next) => Chain([x], EventsFrom(b, next))
    case Throw => Thrown
    case _ => Ok([])
  }

  /**
   * The first table id of the schedule range that the `<=` chain of
   * `readEIT` picks for a table id that is not present/following.
   */
  function ScheduleBase(tableId: nat): (r: nat)
    ensures r in {TABLE_ID_EIT_ACTUAL_SCHEDULE_BASIC_BEGIN, TABLE_ID_EIT_ACTUAL_SCHEDULE_EXTENDED_BEGIN,
                  TABLE_ID_EIT_OTHER_SCHEDULE_BASIC_BEGIN, TABLE_ID_EIT_OTHER_SCHEDULE_EXTENDED_BEGIN}
  {
    if tableId <= TABLE_ID_EIT_ACTUAL_SCHEDULE_BASIC_BEGIN then TABLE_ID_EIT_ACTUAL_SCHEDULE_BASIC_BEGIN
    else if tableId <= TABLE_ID_EIT_ACTUAL_SCHEDULE_EXTENDED_BEGIN then TABLE_ID_EIT_ACTUAL_SCHEDULE_EXTENDED_BEGIN
    else if tableId <= TABLE_ID_EIT_OTHER_SCHEDULE_BASIC_BEGIN then TABLE_ID_EIT_OTHER_SCHEDULE_BASIC_BEGIN
    else TABLE_ID_EIT_OTHER_SCHEDULE_EXTENDED_BEGIN
  }

  predicate PresentFollowingId(tableId: nat)
  {
    tableId == TABLE_ID_EIT_ACTUAL_PF || tableId == TABLE_ID_EIT_OTHER_PF
  }

  /** `tableIndex`: 0 for present/following, else the distance from the chosen range start. */
  function TableIndexOf(tableId: nat): int
  {
    if PresentFollowingId(tableId) then 0 else tableId - ScheduleBase(tableId)
  }

  /** `lastTableIndex`: the last table id measured from the same range start as the table id. */
  function LastTableIndexOf(tableId: nat, lastTableId: nat): int
  {
    if PresentFollowingId(tableId) then 0 else lastTableId - ScheduleBase(tableId)
  }

  /** `other`: set for the other-network present/following table and the last two range starts. */
  predicate OtherOf(tableId: nat)
  {
    tableId == TABLE_ID_EIT_OTHER_PF
    || (!PresentFollowingId(tableId) && ScheduleBase(tableId) >= TABLE_ID_EIT_OTHER_SCHEDULE_BASIC_BEGIN)
  }

  function KindOf(tableId: nat): EITKind
  {
    if PresentFollowingId(tableId) then PresentFollowing
    else if tableId % 0x10 <= 7 then ScheduleBasic
    else ScheduleExtended
  }

  /** `readEIT`: 11 fixed bytes, then the events; the index fields come from the table id alone. */
  function EITOf(tableId: nat, d: bytes): (r: Decoded<Section>)
    ensures r.Undefined? <==> |d| < 11
    ensures r.Ok? <==> 11 <= |d| && EventsFrom(d, 11).Ok?
    ensures r.Ok? ==> 11 <= |d| && EITHeadOf(tableId, d).EIT?
                      && r.value == EITHeadOf(tableId, d).(events := EventsFrom(d, 11).value)
  {
    if |d| < 2 + 1 + 1 + 1 + 2 + 2 + 1 + 1 then Undefined
    else
      var events :- EventsFrom(d, 11);
      Ok(EITHeadOf(tableId, d).(events := events))
  }

  /** The EIT fields of its eleven fixed bytes and of the table id; the events follow them. */
  function EITHeadOf(tableId: nat, d: bytes): (s: Section)
    requires 11 <= |d|
    ensures s.EIT? && s.tableIdNumber == tableId && s.kind == KindOf(tableId)
            && s.tableIndex == TableIndexOf(tableId) && s.other == OtherOf(tableId)
            && s.lastTableIndex == LastTableIndexOf(tableId, s.lastTableId)
    ensures s.serviceId == U16(d, 0) && s.header == SectionHeaderAt(d, 2) && s.transportStreamId == U16(d, 5)
            && s.originalNetworkId == U16(d, 7) && s.segmentLastSectionNumber == d[9] && s.lastTableId == d[10]
            && s.events == []
  {
    EIT(KindOf(tableId), tableId, TableIndexOf(tableId), OtherOf(tableId), U16(d, 0), SectionHeaderAt(d, 2),
        U16(d, 5), U16(d, 7), d[9], d[10], LastTableIndexOf(tableId, d[10]), [])
  }

  method ReadEIT(tableId: nat, buffer: bytes) returns (r: Decoded<Section>)
    ensures r == EITOf(tableId, buffer)
  {
    var reader := new BinaryReader(buffer, 0);
    if !reader.CanRead(2 + 1 + 1 + 1 + 2 + 2 + 1 + 1) {
      return Undefined;
    }
    var eit := ReadEITHead(reader, tableId);
    var events :- ReadEvents(reader);
    r := Ok(eit.(events := events));
  }

  method ReadEITHead(reader: BinaryReader, tableId: nat) returns (s: Section)
    requires reader.offset == 0 && reader.CanRead(11)
    modifies reader
    ensures reader.offset == 11
    ensures s == EITHeadOf(tableId, reader.buffer)
  {
    var serviceId := reader.ReadUint16();
    var header := ReadSectionHeader(reader);
    var transportStreamId := reader.ReadUint16();
    var originalNetworkId := reader.ReadUint16();
    var segmentLastSectionNumber := reader.ReadUint8();
    var lastTableId := reader.ReadUint8();
    var kind, tableIndex, other, lastTableIndex := EITIndices(tableId, lastTableId);
    s := EIT(kind, tableId, tableIndex, other, serviceId, header, transportStreamId, originalNetworkId,
             segmentLastSectionNumber, lastTableId, lastTableIndex, []);
  }

  /** The `tableIndex`, `other` and `lastTableIndex` chains of `readEIT`, and its `tableId` string. */
  method EITIndices(tableId: nat, lastTableId: nat) returns (kind: EITKind, tableIndex: int, other: bool, lastTableIndex: int)
    ensures kind == KindOf(tableId) && tableIndex == TableIndexOf(tableId) && other == OtherOf(tableId)
    ensures lastTableIndex == LastTableIndexOf(tableId, lastTableId)
  {
    other := false;
    if tableId == TABLE_ID_EIT_ACTUAL_PF {
      tableIndex := 0;
    } else if tableId == TABLE_ID_EIT_OTHER_PF {
      tableIndex := 0;
      other := true;
    } else if tableId <= TABLE_ID_EIT_ACTUAL_SCHEDULE_BASIC_BEGIN {
      tableIndex := tableId - TABLE_ID_EIT_ACTUAL_SCHEDULE_BASIC_BEGIN;
    } else if tableId <= TABLE_ID_EIT_ACTUAL_SCHEDULE_EXTENDED_BEGIN {
      tableIndex := tableId - TABLE_ID_EIT_ACTUAL_SCHEDULE_EXTENDED_BEGIN;
    } else if tableId <= TABLE_ID_EIT_OTHER_SCHEDULE_BASIC_BEGIN {
      other := true;
      tableIndex := tableId - TABLE_ID_EIT_OTHER_SCHEDULE_BASIC_BEGIN;
    } else {
      other := true;
      tableIndex := tableId - TABLE_ID_EIT_OTHER_SCHEDULE_EXTENDED_BEGIN;
    }
    if tableId == TABLE_ID_EIT_ACTUAL_PF || tableId == TABLE_ID_EIT_OTHER_PF {
      lastTableIndex := 0;
    } else if tableId <= TABLE_ID_EIT_ACTUAL_SCHEDULE_BASIC_BEGIN {
      lastTableIndex := lastTableId - TABLE_ID_EIT_ACTUAL_SCHEDULE_BASIC_BEGIN;
    } else if tableId <= TABLE_ID_EIT_ACTUAL_SCHEDULE_EXTENDED_BEGIN {
      lastTableIndex := lastTableId - TABLE_ID_EIT_ACTUAL_SCHEDULE_EXTENDED_BEGIN;
    } else if tableId <= TABLE_ID_EIT_OTHER_SCHEDULE_BASIC_BEGIN {
      lastTableIndex := lastTableId - TABLE_ID_EIT_OTHER_SCHEDULE_BASIC_BEGIN;
    } else {
      lastTableIndex := lastTableId - TABLE_ID_EIT_OTHER_SCHEDULE_EXTENDED_BEGIN;
    }
    if tableId == TABLE_ID_EIT_ACTUAL_PF || tableId == TABLE_ID_EIT_OTHER_PF {
      kind := PresentFollowing;
    } else if tableId % 0x10 <= 7 {
      kind := ScheduleBasic;
    } else {
      kind := ScheduleExtended;
    }
  }

  method ReadEvents(reader: BinaryReader) returns (r: Decoded<seq<EventInformation>>)
    requires reader.offset >= 0
    modifies reader
    ensures r == EventsFrom(reader.buffer, old(reader.offset))
  {
    ghost var b, o := reader.buffer, reader.offset;
    var events: seq<EventInformation> := [];
    ChainEmpty(EventsFrom(b, o));
    while reader.CanRead(2 + 5 + 3 + 2)
      invariant reader.buffer == b && reader.offset >= 0
      invariant Chain(events, EventsFrom(b, reader.offset)) == EventsFrom(b, o)
      decreases |b| - reader.offset
    {
      var step := ReadEvent(reader);
      if step.Throw? {
        return Thrown;
      }
      if step.Done? {
        ChainDone(events);
        return Ok(events);
      }
      ChainAppend(events, step.value, EventsFrom(b, reader.offset));
      events := events + [step.value];
    }
    ChainDone(events);
    r := Ok(events);
  }

  method ReadEvent(reader: BinaryReader) returns (step: Step<EventInformation>)
    requires reader.offset >= 0 && reader.CanRead(12)
    modifies reader
    ensures step == EventAt(reader.buffer, old(reader.offset))
    ensures step.Read? ==> reader.offset == step.next
  {
    var h := ReadEventHead(reader);
    if !reader.CanRead(h.length) {
      return Done;
    }
    var descriptors := ReadDescriptorsIn(reader, h.length);
    step := EventRead(h, descriptors, reader.offset);
  }

  method ReadEventHead(reader: BinaryReader) returns (h: Head<EventInformation>)
    requires reader.offset >= 0 && reader.CanRead(12)
    modifies reader
    ensures reader.offset == old(reader.offset) + 12
    ensures h == EventHeadAt(reader.buffer, old(reader.offset))
  {
    var eventId := reader.ReadUint16();
    var startTime := reader.ReadUint40();
    var duration := reader.ReadUint24();
    var f := reader.ReadUint16();
    h := Head(EventInformation(eventId, StartTimeOf(startTime), DurationOf(duration), f / 0x2000, f / 0x1000 % 2 == 1, []),
              f % 0x1000);
  }


  // ---------------------------------------------------------------------
  // DSM-CC download data header, DII and DDB

  /**
   * `readDSMCCDownloadDataHeader` on a reader at o: twelve header bytes read
   * with no bound check, an adaptation field carried inside the message
   * length, then the message body.
   */
  function DSMCCHeaderAt(b: bytes, o: nat): (r: Decoded<DSMCCMessage>)
    ensures r.Thrown? <==> |b| < o + 12
    ensures r.Undefined? <==> o + 12 <= |b| && (U16(b, o + 10) < b[o + 9] || |b| < o + 12 + U16(b, o + 10))
    ensures r.Ok? ==> o + 12 <= |b| && |r.value.message| + b[o + 9] == U16(b, o + 10)
                      && (r.value.header.adaptation.Some? <==> b[o + 9] > 0)
                      && (r.value.header.adaptation.Some? ==> |r.value.header.adaptation.value.adaptationData| + 1 == b[o + 9])
  {
    if |b| < o + 12 then Thrown
    else
      var adaptationLength := b[o + 9];
      var messageLength := U16(b, o + 10);
      if messageLength < adaptationLength || |b| < o + 12 + messageLength then Undefined
      else
        Ok(DSMCCMessage(DSMCCDownloadDataHeader(b[o], b[o + 1], U16(b, o + 2), U32(b, o + 4), AdaptationAt(b, o + 12, adaptationLength)),
                        b[o + 12 + adaptationLength..o + 12 + messageLength]))
  }

  /** The adaptation field, present when its length is not zero: a type byte and the data after it. */
  function AdaptationAt(b: bytes, o: nat, adaptationLength: nat): (r: Option<Adaptation>)
    requires o + adaptationLength <= |b|
    ensures r.Some? <==> adaptationLength > 0
    ensures r.Some? ==> |r.value.adaptationData| + 1 == adaptationLength
  {
    if adaptationLength > 0 then Some(Adaptation(b[o], b[o + 1..o + adaptationLength])) else None
  }

  method ReadAdaptation(reader: BinaryReader, adaptationLength: nat) returns (r: Option<Adaptation>)
    requires reader.offset >= 0 && reader.CanRead(adaptationLength)
    modifies reader
    ensures reader.offset == old(reader.offset) + adaptationLength
    ensures r == AdaptationAt(reader.buffer, old(reader.offset), adaptationLength)
  {
    r := None;
    if adaptationLength > 0 {
      var adaptationType := reader.ReadUint8();
      var adaptationData := reader.Slice(adaptationLength - 1);
      r := Some(Adaptation(adaptationType, adaptationData));
    }
  }

  method ReadDSMCCDownloadDataHeader(reader: BinaryReader) returns (r: Decoded<DSMCCMessage>)
    requires reader.offset >= 0
    modifies reader
    ensures r == DSMCCHeaderAt(reader.buffer, old(reader.offset))
  {
    if !reader.InView(12) {
      // one of the unchecked reads of the twelve header bytes runs off the end
      return Thrown;
    }
    var fixed, adaptationLength, messageLength := ReadDSMCCHead(reader);
    if messageLength < adaptationLength {
      return Undefined;
    }
    if !reader.CanRead(messageLength) {
      return Undefined;
    }
    var adaptation := ReadAdaptation(reader, adaptationLength);
    var message := reader.Subarray(messageLength - adaptationLength);
    r := Ok(DSMCCMessage(fixed.(adaptation := adaptation), message));
  }

  /** The twelve fixed bytes of the download data header; `adaptationType` and `adaptationData` come later. */
  method ReadDSMCCHead(reader: BinaryReader) returns (fixed: DSMCCDownloadDataHeader, adaptationLength: nat, messageLength: nat)
    requires reader.InView(12)
    modifies reader
    ensures reader.offset == old(reader.offset) + 12
    ensures var b, o := reader.buffer, old(reader.offset);
            fixed == DSMCCDownloadDataHeader(b[o], b[o + 1], U16(b, o + 2), U32(b, o + 4), None)
            && adaptationLength == b[o + 9] && messageLength == U16(b, o + 10)
  {
    var protocolDiscriminator := reader.ReadUint8();
    var dsmccType := reader.ReadUint8();
    var messageId := reader.ReadUint16();
    var transactionId := reader.ReadUint32();
    reader.Skip(1);
    adaptationLength := reader.ReadUint8();
    messageLength := reader.ReadUint16();
    fixed := DSMCCDownloadDataHeader(protocolDiscriminator, dsmccType, messageId, transactionId, None);
  }

  /** One module of the DII loop: eight fixed bytes and `moduleInfoLength` bytes of module info. */
  function ModuleAt(m: bytes, o: nat): (r: Option<Field<DSMCCModule>>)
    ensures r.Some? <==> o + 8 <= |m| && o + 8 + m[o + 7] <= |m|
    ensures r.Some? ==> r.value.next == o + 8 + |r.value.value.moduleInfo| && |r.value.value.moduleInfo| == m[o + 7]
  {
    if |m| < o + 2 + 4 + 1 + 1 then None
    else
      var moduleInfoLength := m[o + 7];
      if |m| < o + 8 + moduleInfoLength then None
      else Some(Field(DSMCCModule(U16(m, o), U32(m, o + 2), m[o + 6], m[o + 8..o + 8 + moduleInfoLength]), o + 8 + moduleInfoLength))
  }

  /** The module list of a DII message and the private data after it. */
  datatype ModuleList = ModuleList(modules: seq<DSMCCModule>, privateData: bytes)

  /**
   * The DII message from p on: `numberOfModules`, that many modules, then the
   * private data with its 16-bit length.
   */
  function ModuleListAt(m: bytes, p: nat): (r: Option<ModuleList>)
  {
    if |m| < p + 2 then None
    else
      match Counted(ModuleAt, m, p + 2, U16(m, p))
      case None => None
      case Some(modules) =>
        match PrivateDataAt(m, modules.next)
        case None => None
        case Some(privateData) => Some(ModuleList(modules.value, privateData))
  }

  /** The DII private data at q: a 16-bit length and that many bytes. */
  function PrivateDataAt(m: bytes, q: nat): (r: Option<bytes>)
    ensures r.Some? <==> q + 2 <= |m| && q + 2 + U16(m, q) <= |m|
    ensures r.Some? ==> |r.value| == U16(m, q)
  {
    if |m| < q + 2 then None
    else
      var privateDataLength := U16(m, q);
      if |m| < q + 2 + privateDataLength then None
      else Some(m[q + 2..q + 2 + privateDataLength])
  }

  method ReadPrivateData(reader: BinaryReader) returns (r: Option<bytes>)
    requires 0 <= reader.offset
    modifies reader
    ensures r == PrivateDataAt(reader.buffer, old(reader.offset))
  {
    if !reader.CanRead(2) {
      return None;
    }
    var privateDataLength := reader.ReadUint16();
    if !reader.CanRead(privateDataLength) {
      return None;
    }
    var privateData := reader.Slice(privateDataLength);
    r := Some(privateData);
  }

  /**
   * The DII message that follows the download data header: eighteen fixed
   * bytes, a compatibility descriptor that is skipped, then the module list.
   * Every shortfall is `undefined`.
   */
  function DIIMessageOf(tableIdExtension: nat, header: SectionHeader, h: DSMCCDownloadDataHeader, m: bytes): (r: Option<Section>)
    ensures r.Some? ==> r.value.DII? && r.value.tableIdExtension == tableIdExtension && r.value.header == header
                        && r.value.dsmccDownloadDataHeader == h
    ensures |m| < 18 ==> r.None?
  {
    if |m| < 4 + 2 + 1 + 1 + 4 + 4 + 2 then None
    else
      var p := 18 + U16(m, 16);
      if |m| < p then None
      else
        match ModuleListAt(m, p)
        case None => None
        case Some(list) =>
          Some(DIIFixedOf(tableIdExtension, header, h, m).(modules := list.modules, privateData := list.privateData))
  }

  /** The DII fields read from the eighteen fixed bytes of its message, before the module list. */
  function DIIFixedOf(tableIdExtension: nat, header: SectionHeader, h: DSMCCDownloadDataHeader, m: bytes): (r: Section)
    requires 18 <= |m|
    ensures r.DII?
  {
    DII(tableIdExtension, header, h, U32(m, 0), U16(m, 4), m[6], m[7], U32(m, 8), U32(m, 12), [], [])
  }

  /** `readDII`: the section header, the DSM-CC header read from offset 5, then the DII message. */
  function DIIOf(d: bytes): (r: Decoded<Section>)
    ensures r.Undefined? ==> |d| < 5 || |d| >= 17
    ensures r.Thrown? <==> 5 <= |d| < 17
    ensures r.Ok? ==> 5 <= |d| && r.value.DII? && r.value.tableIdExtension == U16(d, 0) && r.value.header == SectionHeaderAt(d, 2)
  {
    if |d| < 2 + 1 + 1 + 1 then Undefined
    else
      var msg :- DSMCCHeaderAt(d, 5);
      FromOption(DIIMessageOf(U16(d, 0), SectionHeaderAt(d, 2), msg.header, msg.message))
  }

  method ReadDII(buffer: bytes) returns (r: Decoded<Section>)
    ensures r == DIIOf(buffer)
  {
    var reader := new BinaryReader(buffer, 0);
    if !reader.CanRead(2 + 1 + 1 + 1) {
      return Undefined;
    }
    var tableIdExtension := reader.ReadUint16();
    var header := ReadSectionHeader(reader);
    var msg :- ReadDSMCCDownloadDataHeader(reader);
    var section := ReadDIIMessage(tableIdExtension, header, msg.header, msg.message);
    r := FromOption(section);
  }

  method ReadDIIMessage(tableIdExtension: nat, header: SectionHeader, h: DSMCCDownloadDataHeader, message: bytes)
    returns (r: Option<Section>)
    ensures r == DIIMessageOf(tableIdExtension, header, h, message)
  {
    var mreader := new BinaryReader(message, 0);
    if !mreader.CanRead(4 + 2 + 1 + 1 + 4 + 4 + 2) {
      return None;
    }
    var fixed, compatibilityDescriptorLength := ReadDIIFixed(mreader, tableIdExtension, header, h);
    if !mreader.CanRead(compatibilityDescriptorLength) {
      return None;
    }
    mreader.Skip(compatibilityDescriptorLength);
    var list := ReadModuleList(mreader);
    if list.None? {
      return None;
    }
    r := Some(fixed.(modules := list.value.modules, privateData := list.value.privateData));
  }

  method ReadDIIFixed(mreader: BinaryReader, tableIdExtension: nat, header: SectionHeader, h: DSMCCDownloadDataHeader)
    returns (fixed: Section, compatibilityDescriptorLength: nat)
    requires mreader.offset == 0 && 18 <= |mreader.buffer|
    modifies mreader
    ensures mreader.offset == 18
    ensures fixed == DIIFixedOf(tableIdExtension, header, h, mreader.buffer)
    ensures compatibilityDescriptorLength == U16(mreader.buffer, 16)
  {
    var downloadId := mreader.ReadUint32();
    var blockSize := mreader.ReadUint16();
    var windowSize := mreader.ReadUint8();
    var ackPeriod := mreader.ReadUint8();
    var tCDownloadWindow := mreader.ReadUint32();
    var tCDownloadScenario := mreader.ReadUint32();
    compatibilityDescriptorLength := mreader.ReadUint16();
    fixed := DII(tableIdExtension, header, h, downloadId, blockSize, windowSize, ackPeriod, tCDownloadWindow,
                 tCDownloadScenario, [], []);
  }

  method ReadModuleList(reader: BinaryReader) returns (r: Option<ModuleList>)
    requires 0 <= reader.offset
    modifies reader
    ensures r == ModuleListAt(reader.buffer, old(reader.offset))
  {
    if !reader.CanRead(2) {
      return None;
    }
    var numberOfModules := reader.ReadUint16();
    var modules := ReadModules(reader, numberOfModules);
    if modules.None? {
      return None;
    }
    var privateData := ReadPrivateData(reader);
    if privateData.None? {
      return None;
    }
    r := Some(ModuleList(modules.value, privateData.value));
  }

  method ReadModules(reader: BinaryReader, n: nat) returns (r: Option<seq<DSMCCModule>>)
    requires 0 <= reader.offset
    modifies reader
    ensures r.Some? ==> 0 <= reader.offset
    ensures Counted(ModuleAt, reader.buffer, old(reader.offset), n)
            == if r.Some? then Some(Field(r.value, reader.offset)) else None
  {
    ghost var b, o := reader.buffer, reader.offset;
    var modules: seq<DSMCCModule> := [];
    ThenEmpty(Counted(ModuleAt, b, o, n));
    for i := 0 to n
      invariant reader.buffer == b && 0 <= reader.offset
      invariant Then(modules, Counted(ModuleAt, b, reader.offset, n - i)) == Counted(ModuleAt, b, o, n)
    {
      ghost var start := reader.offset;
      var m := ReadModule(reader);
      if m.None? {
        return None;
      }
      assert Counted(ModuleAt, b, start, n - i) == Then([m.value], Counted(ModuleAt, b, reader.offset, n - i - 1));
      ThenAppend(modules, m.value, Counted(ModuleAt, b, reader.offset, n - i - 1));
      modules := modules + [m.value];
    }
    ThenDone(modules, reader.offset);
    r := Some(modules);
  }

  method ReadModule(reader: BinaryReader) returns (r: Option<DSMCCModule>)
    requires 0 <= reader.offset
    modifies reader
    ensures r.Some? ==> 0 <= reader.offset
    ensures ModuleAt(reader.buffer, old(reader.offset)) == if r.Some? then Some(Field(r.value, reader.offset)) else None
  {
    if !reader.CanRead(2 + 4 + 1 + 1) {
      return None;
    }
    var moduleId := reader.ReadUint16();
    var moduleSize := reader.ReadUint32();
    var moduleVersion := reader.ReadUint8();
    var moduleInfoLength := reader.ReadUint8();
    if !reader.CanRead(moduleInfoLength) {
      return None;
    }
    var moduleInfo := reader.Slice(moduleInfoLength);
    r := Some(DSMCCModule(moduleId, moduleSize, moduleVersion, moduleInfo));
  }

  /** `readDDB`: the DSM-CC header, then six bytes of block header and the rest as block data. */
  function DDBOf(d: bytes): (r: Decoded<Section>)
    ensures r.Thrown? <==> 5 <= |d| < 17
    ensures r.Ok? ==> 5 <= |d| && r.value.DDB? && r.value.tableIdExtension == U16(d, 0) && r.value.header == SectionHeaderAt(d, 2)
  {
    if |d| < 2 + 1 + 1 + 1 then Undefined
    else
      var msg :- DSMCCHeaderAt(d, 5);
      var m := msg.message;
      if |m| < 2 + 1 + 1 + 2 then Undefined
      else Ok(DDB(U16(d, 0), SectionHeaderAt(d, 2), msg.header, U16(m, 0), m[2], U16(m, 4), m[6..]))
  }

  method ReadDDB(buffer: bytes) returns (r: Decoded<Section>)
    ensures r == DDBOf(buffer)
  {
    var reader := new BinaryReader(buffer, 0);
    if !reader.CanRead(2 + 1 + 1 + 1) {
      return Undefined;
    }
    var tableIdExtension := reader.ReadUint16();
    var header := ReadSectionHeader(reader);
    var msg :- ReadDSMCCDownloadDataHeader(reader);
    var mreader := new BinaryReader(msg.message, 0);
    if !mreader.CanRead(2 + 1 + 1 + 2) {
      return Undefined;
    }
    var moduleId := mreader.ReadUint16();
    var moduleVersion := mreader.ReadUint8();
    mreader.Skip(1);
    var blockNumber := mreader.ReadUint16();
    var blockData := mreader.SliceRest();
    assert blockData == msg.message[6..];
    r := Ok(DDB(tableIdExtension, header, msg.header, moduleId, moduleVersion, blockNumber, blockData));
  }

  // ---------------------------------------------------------------------
  // Stream descriptor section

  const NPT_REFERENCE_DESCRIPTOR := 0x17
  const GENERAL_EVENT_DESCRIPTOR := 0x40

  /**
   * `readNPTReferenceDescriptor`: 18 bytes.  The STC reference is 33 bits
   * (one high bit, then a 32-bit word); the NPT reference is the next word
   * minus 2^32 when the low bit of the word before it is set.
   */
  function NPTReferenceOf(d: bytes): (r: Option<StreamDescriptor>)
    ensures r.Some? <==> 18 <= |d|
    ensures r.Some? ==> r.value.NPTReference?
                        && 0 <= r.value.stcReference < 0x2_0000_0000
                        && r.value.stcReference % 0x1_0000_0000 == U32(d, 2)
                        && r.value.stcReference / 0x1_0000_0000 == d[1] % 2
                        && -0x1_0000_0000 <= r.value.nptReference < 0x1_0000_0000
                        && r.value.nptReference % 0x1_0000_0000 == U32(d, 10)
                        && (r.value.nptReference < 0 <==> U32(d, 6) % 2 == 1)
                        && r.value.dsmContentId < 0x80
                        && d[0] == r.value.dsmContentId + (if r.value.postDiscontinuityIndicator then 0x80 else 0)
  {
    if |d| < 18 then None
    else
      var b0 := d[0];
      var stcHigh := d[1] % 2 == 1;
      var nptSign := U32(d, 6) % 2 == 1;
      Some(NPTReference(b0 >= 0x80, b0 % 0x80, U32(d, 2) + (if stcHigh then 0x1_0000_0000 else 0),
                        U32(d, 10) - (if nptSign then 0x1_0000_0000 else 0), I16(d, 14), I16(d, 16)))
  }

  /**
   * The time of a general event descriptor by `time_mode`; the modes the
   * reader does not know leave the time undefined.
   */
  function GeneralEventTimeOf(timeMode: nat, d: bytes): (r: Option<GeneralEventTime>)
    requires 8 <= |d|
    ensures r.Some? <==> timeMode == 0 || timeMode == 1 || timeMode == 2 || timeMode == 3 || timeMode == 5
    ensures r.Some? && r.value.NPT? ==> r.value.eventMessageNPT < 0x2_0000_0000
    ensures r.Some? && r.value.Relative? ==> r.value.eventMessageRelativeTime < 0x10_0000_0000
  {
    if timeMode == 0 then Some(Immediate)
    else if timeMode == 1 then Some(MJD(U40(d, 3)))
    else if timeMode == 2 then Some(NPT(U32(d, 4) + (if d[3] % 2 == 1 then 0x1_0000_0000 else 0)))
    else if timeMode == 3 then Some(Relative(U32(d, 4) + (d[3] as int) % 16 * 0x1_0000_0000))
    else if timeMode == 5 then Some(MJDStreamTime(U40(d, 3)))
    else None
  }

  /** `readGeneralEventDescriptor`: eleven bytes, then the private data to the end. */
  function GeneralEventOf(d: bytes): (r: Option<StreamDescriptor>)
    ensures r.Some? <==> 11 <= |d| && GeneralEventTimeOf(d[2], d).Some?
    ensures r.Some? ==> r.value.GeneralEvent? && r.value.eventMessageGroupId < 0x1000
                        && r.value.eventMessageId == U16(d, 9) && |r.value.privateData| + 11 == |d|
  {
    if |d| < 2 + 1 + 5 + 1 + 2 then None
    else
      match GeneralEventTimeOf(d[2], d)
      case None => None
      case Some(time) => Some(GeneralEvent(U16(d, 0) / 0x10, time, d[8], U16(d, 9), d[11..]))
  }

  /** One stream descriptor by tag: any tag but the two known ones throws. */
  function StreamDescriptorOf(tag: nat, d: bytes): (r: Decoded<StreamDescriptor>)
    ensures r.Thrown? <==> tag != NPT_REFERENCE_DESCRIPTOR && tag != GENERAL_EVENT_DESCRIPTOR
    ensures r.Ok? ==> (r.value.NPTReference? <==> tag == NPT_REFERENCE_DESCRIPTOR)
  {
    if tag == NPT_REFERENCE_DESCRIPTOR then FromOption(NPTReferenceOf(d))
    else if tag == GENERAL_EVENT_DESCRIPTOR then FromOption(GeneralEventOf(d))
    else Thrown
  }

  method ReadStreamDescriptor(tag: nat, d: bytes) returns (r: Decoded<StreamDescriptor>)
    ensures r == StreamDescriptorOf(tag, d)
  {
    var reader := new BinaryReader(d, 0);
    if tag == NPT_REFERENCE_DESCRIPTOR {
      if !reader.CanRead(18) {
        return Undefined;
      }
      var b0 := reader.ReadUint8();
      var stcHigh := reader.ReadUint8();
      var stcReference := reader.ReadUint32();
      var nptSign := reader.ReadUint32();
      var nptReference := reader.ReadUint32();
      var scaleNumerator := reader.ReadInt16();
      var scaleDenominator := reader.ReadInt16();
      r := Ok(NPTReference(b0 >= 0x80, b0 % 0x80, stcReference + (if stcHigh % 2 == 1 then 0x1_0000_0000 else 0),
                           (nptReference as int) - (if nptSign % 2 == 1 then 0x1_0000_0000 else 0), scaleNumerator, scaleDenominator));
    } else if tag == GENERAL_EVENT_DESCRIPTOR {
      r := ReadGeneralEvent(reader);
    } else {
      r := Thrown;
    }
  }

  method ReadGeneralEvent(reader: BinaryReader) returns (r: Decoded<StreamDescriptor>)
    requires reader.offset == 0
    modifies reader
    ensures r == FromOption(GeneralEventOf(reader.buffer))
  {
    if !reader.CanRead(2 + 1 + 5 + 1 + 2) {
      return Undefined;
    }
    var groupWord := reader.ReadUint16();
    var eventMessageGroupId := groupWord / 0x10;
    var timeMode := reader.ReadUint8();
    var time := ReadGeneralEventTime(reader, timeMode);
    if time.None? {
      return Undefined;
    }
    var eventMessageType := reader.ReadUint8();
    var eventMessageId := reader.ReadUint16();
    var privateData := reader.SliceRest();
    assert privateData == reader.buffer[11..];
    r := Ok(GeneralEvent(eventMessageGroupId, time.value, eventMessageType, eventMessageId, privateData));
  }

  method ReadGeneralEventTime(reader: BinaryReader, timeMode: nat) returns (r: Option<GeneralEventTime>)
    requires reader.offset == 3 && 11 <= |reader.buffer|
    modifies reader
    ensures r == GeneralEventTimeOf(timeMode, reader.buffer)
    ensures r.Some? ==> reader.offset == 8
  {
    if timeMode == 0 {
      r := Some(Immediate);
      reader.Skip(5);
    } else if timeMode == 1 {
      var t := reader.ReadUint40();
      r := Some(MJD(t));
    } else if timeMode == 2 {
      var nptHigh := reader.ReadUint8();
      var t := reader.ReadUint32();
      r := Some(NPT(t + (if nptHigh % 2 == 1 then 0x1_0000_0000 else 0)));
    } else if timeMode == 3 {
      var relativeTimeHigh := reader.ReadUint8();
      var t := reader.ReadUint32();
      r := Some(Relative(t + relativeTimeHigh % 16 * 0x1_0000_0000));
    } else if timeMode == 5 {
      var t := reader.ReadUint40();
      r := Some(MJDStreamTime(t));
    } else {
      r := None;
    }
  }

  /** `readStreamDescriptors` from o: the same framing as a descriptor list, and an unknown tag throws. */
  function StreamDescriptorsFrom(b: bytes, o: nat): (r: Decoded<seq<StreamDescriptor>>)
    ensures !r.Undefined?
    decreases |b| - o
  {
    match FrameAt(b, o)
    case Stop => Ok([])
    case Next(f, next) =>
      match StreamDescriptorOf(f.tag, f.body)
      case Thrown => Thrown
      case Undefined => StreamDescriptorsFrom(b, next)
      case Ok(x) => Chain([x], StreamDescriptorsFrom(b, next))
  }

  method ReadStreamDescriptors(buffer: bytes) returns (r: Decoded<seq<StreamDescriptor>>)
    ensures r == StreamDescriptorsFrom(buffer, 0)
  {
    var reader := new BinaryReader(buffer, 0);
    ghost var b := buffer;
    var descriptors: seq<StreamDescriptor> := [];
    ChainEmpty(StreamDescriptorsFrom(b, 0));
    while reader.CanRead(2)
      invariant reader.buffer == b && reader.offset >= 0
      invariant Chain(descriptors, StreamDescriptorsFrom(b, reader.offset)) == StreamDescriptorsFrom(b, 0)
      decreases |b| - reader.offset
    {
      var step := ReadFrame(reader);
      if step.Stop? {
        ChainDone(descriptors);
        return Ok(descriptors);
      }
      var desc := ReadStreamDescriptor(step.frame.tag, step.frame.body);
      if desc.Thrown? {
        return Thrown;
      }
      if desc.Ok? {
        ChainAppend(descriptors, desc.value, StreamDescriptorsFrom(b, reader.offset));
        descriptors := descriptors + [desc.value];
      }
    }
    ChainDone(descriptors);
    r := Ok(descriptors);
  }

  /** The stream descriptors of a list of frames, as `StreamDescriptorsFrom` walks them. */
  function CollectStream(fs: seq<Frame>): (r: Decoded<seq<StreamDescriptor>>)
    ensures !r.Undefined?
  {
    if fs == [] then Ok([])
    else
      match StreamDescriptorOf(fs[0].tag, fs[0].body)
      case Thrown => Thrown
      case Undefined => CollectStream(fs[1..])
      case Ok(x) => Chain([x], CollectStream(fs[1..]))
  }

  lemma {:induction false} StreamDescriptorsFromFrames(b: bytes, o: nat)
    ensures StreamDescriptorsFrom(b, o) == CollectStream(Frames(b, o))
    decreases |b| - o
  {
    match FrameAt(b, o)
    case Stop =>
    case Next(f, next) =>
      StreamDescriptorsFromFrames(b, next);
      assert Frames(b, o) == [f] + Frames(b, next);
      assert Frames(b, o)[1..] == Frames(b, next);
  }

  /** A frame of unknown tag anywhere in the list makes the whole list throw. */
  lemma {:induction false} UnknownStreamTagThrows(fs: seq<Frame>, i: nat)
    requires i < |fs| && fs[i].tag != NPT_REFERENCE_DESCRIPTOR && fs[i].tag != GENERAL_EVENT_DESCRIPTOR
    ensures CollectStream(fs).Thrown?
    decreases i
  {
    if i > 0 {
      UnknownStreamTagThrows(fs[1..], i - 1);
    }
  }

  /** Encoded frames followed by a trailer that cannot be a frame decode to exactly their stream descriptors. */
  lemma {:induction false} StreamDescriptorsOfEncoded(fs: seq<Frame>, t: bytes)
    requires forall i :: 0 <= i < |fs| ==> WellFormedFrame(fs[i])
    requires Trailer(t)
    ensures StreamDescriptorsFrom(EncodeFrames(fs) + t, 0) == CollectStream(fs)
  {
    StreamDescriptorsFromFrames(EncodeFrames(fs) + t, 0);
    FramesRoundTrip(fs, t);
  }

  /** `readStreamDescriptorSection`: five header bytes, then the stream descriptors to the end. */
  function StreamDescriptorSectionOf(d: bytes): (r: Decoded<Section>)
    ensures r.Undefined? <==> |d| < 5
    ensures r.Thrown? <==> 5 <= |d| && StreamDescriptorsFrom(d[5..], 0).Thrown?
    ensures r.Ok? ==> r.value.StreamDescriptorSection? && r.value.dataEventId < 16 && r.value.eventMessageGroupId < 16
  {
    if |d| < 2 + 1 + 1 + 1 then Undefined
    else
      var streamDescriptors :- StreamDescriptorsFrom(d[5..], 0);
      Ok(StreamDescriptorSection(U16(d, 0) / 0x1000, U16(d, 0) % 16, SectionHeaderAt(d, 2), streamDescriptors))
  }

  method ReadStreamDescriptorSection(buffer: bytes) returns (r: Decoded<Section>)
    ensures r == StreamDescriptorSectionOf(buffer)
  {
    var reader := new BinaryReader(buffer, 0);
    if !reader.CanRead(2 + 1 + 1 + 1) {
      return Undefined;
    }
    var h0 := reader.ReadUint16();
    var header := ReadSectionHeader(reader);
    var rest := reader.SubarrayRest();
    assert rest == buffer[5..];
    var streamDescriptors :- ReadStreamDescriptors(rest);
    r := Ok(StreamDescriptorSection(h0 / 0x1000, h0 % 16, header, streamDescriptors));
  }

  // ---------------------------------------------------------------------
  // TOT and CDT

  /** `readTOT`: the JST time, then a 12-bit descriptor loop length and the descriptors. */
  function TOTOf(d: bytes): (r: Decoded<Section>)
    ensures r.Undefined? <==> |d| < 7 || |d| < 7 + U16(d, 5) % 0x1000
    ensures r.Ok? <==> 7 <= |d| && 7 + U16(d, 5) % 0x1000 <= |d| && DescriptorsIn(d, 7, U16(d, 5) % 0x1000).Ok?
    ensures r.Ok? ==> r.value == TOT(U40(d, 0), DescriptorsIn(d, 7, U16(d, 5) % 0x1000).value)
  {
    if |d| < 5 + 2 then Undefined
    else
      var descriptorLoopLength := U16(d, 5) % 0x1000;
      if |d| < 7 + descriptorLoopLength then Undefined
      else
        var descriptors :- DescriptorsIn(d, 7, descriptorLoopLength);
        Ok(TOT(U40(d, 0), descriptors))
  }

  method ReadTOT(buffer: bytes) returns (r: Decoded<Section>)
    ensures r == TOTOf(buffer)
  {
    var reader := new BinaryReader(buffer, 0);
    if !reader.CanRead(5 + 2) {
      return Undefined;
    }
    var jstTime := reader.ReadUint40();
    var w := reader.ReadUint16();
    var descriptorLoopLength := w % 0x1000;
    if !reader.CanRead(descriptorLoopLength) {
      return Undefined;
    }
    var descriptors :- ReadDescriptorsIn(reader, descriptorLoopLength);
    r := Ok(TOT(jstTime, descriptors));
  }

  /** The logo data module after the CDT descriptors, at p. */
  function CDTModuleAt(d: bytes, p: nat): (r: Option<CommonDataModule>)
    ensures r.Some? <==> p + 7 <= |d| && p + 7 + U16(d, p + 5) <= |d|
    ensures r.Some? ==> r.value.logoId < 0x200 && r.value.logoVersion < 0x1000 && |r.value.data| == U16(d, p + 5)
  {
    if |d| < p + 1 + 2 + 2 + 2 then None
    else
      var dataSize := U16(d, p + 5);
      if |d| < p + 7 + dataSize then None
      else Some(CommonDataModule(d[p], U16(d, p + 1) % 0x200, U16(d, p + 3) % 0x1000, d[p + 7..p + 7 + dataSize]))
  }

  method ReadCDTModule(reader: BinaryReader) returns (r: Option<CommonDataModule>)
    requires reader.offset >= 0
    modifies reader
    ensures r == CDTModuleAt(reader.buffer, old(reader.offset))
  {
    if !reader.CanRead(1 + 2 + 2 + 2) {
      return None;
    }
    var logoType := reader.ReadUint8();
    var logoId := reader.ReadUint16();
    var logoVersion := reader.ReadUint16();
    var dataSize := reader.ReadUint16();
    if !reader.CanRead(dataSize) {
      return None;
    }
    var data := reader.Slice(dataSize);
    r := Some(CommonDataModule(logoType, logoId % 0x200, logoVersion % 0x1000, data));
  }

  /** `readCDT`: ten header bytes, the descriptors, then the data module. */
  function CDTOf(d: bytes): (r: Decoded<Section>)
    ensures |d| < 10 || |d| < 10 + U16(d, 8) % 0x1000 ==> r.Undefined?
    ensures r.Ok? <==> 10 <= |d| && 10 + U16(d, 8) % 0x1000 <= |d| && DescriptorsIn(d, 10, U16(d, 8) % 0x1000).Ok?
                       && CDTModuleAt(d, 10 + U16(d, 8) % 0x1000).Some?
    ensures r.Thrown? <==> 10 <= |d| && 10 + U16(d, 8) % 0x1000 <= |d| && DescriptorsIn(d, 10, U16(d, 8) % 0x1000).Thrown?
    ensures r.Ok? ==> var n := U16(d, 8) % 0x1000;
      r.value == CDT(U16(d, 0), SectionHeaderAt(d, 2), U16(d, 5), d[7], DescriptorsIn(d, 10, n).value,
                     CDTModuleAt(d, 10 + n).value)
  {
    if |d| < 2 + 1 + 1 + 1 then Undefined
    else if |d| < 5 + 2 + 1 + 2 then Undefined
    else
      var descriptorsLoopLength := U16(d, 8) % 0x1000;
      if |d| < 10 + descriptorsLoopLength then Undefined
      else
        var descriptors :- DescriptorsIn(d, 10, descriptorsLoopLength);
        match CDTModuleAt(d, 10 + descriptorsLoopLength)
        case None => Undefined
        case Some(dataModule) => Ok(CDT(U16(d, 0), SectionHeaderAt(d, 2), U16(d, 5), d[7], descriptors, dataModule))
  }

  method ReadCDT(buffer: bytes) returns (r: Decoded<Section>)
    ensures r == CDTOf(buffer)
  {
    var reader := new BinaryReader(buffer, 0);
    if !reader.CanRead(2 + 1 + 1 + 1) {
      return Undefined;
    }
    var downloadDataId := reader.ReadUint16();
    var header := ReadSectionHeader(reader);
    if !reader.CanRead(2 + 1 + 2) {
      return Undefined;
    }
    var originalNetworkId := reader.ReadUint16();
    var dataType := reader.ReadUint8();
    var w := reader.ReadUint16();
    var descriptorsLoopLength := w % 0x1000;
    if !reader.CanRead(descriptorsLoopLength) {
      return Undefined;
    }
    var descriptors :- ReadDescriptorsIn(reader, descriptorsLoopLength);
    var dataModule := ReadCDTModule(reader);
    if dataModule.None? {
      return Undefined;
    }
    r := Ok(CDT(downloadDataId, header, originalNetworkId, dataType, descriptors, dataModule.value));
  }

  // ---------------------------------------------------------------------
  // readSection

  /** The table ids `readSection` hands to a reader; every other id, the ST, ECM, EMM and SDTT among them, is undefined. */
  predicate HasReader(tableId: nat)
  {
    || (TABLE_ID_EIT_ACTUAL_PF <= tableId <= TABLE_ID_EIT_OTHER_SCHEDULE_EXTENDED_END)
    || tableId == TABLE_ID_PAT || tableId == TABLE_ID_CAT || tableId == TABLE_ID_PMT
    || tableId == TABLE_ID_DSMCC_DII || tableId == TABLE_ID_DSMCC_DDB || tableId == TABLE_ID_DSMCC_STREAM_DESCRIPTOR
    || tableId == TABLE_ID_NIT_ACTUAL || tableId == TABLE_ID_NIT_OTHER || tableId == TABLE_ID_BIT
    || tableId == TABLE_ID_SDT_ACTUAL || tableId == TABLE_ID_SDT_OTHER || tableId == TABLE_ID_CDT || tableId == TABLE_ID_TOT
  }

  /** The kind of section each table id is read as. */
  predicate DispatchedTo(tableId: nat, s: Section)
  {
    && (s.PAT? <==> tableId == TABLE_ID_PAT)
    && (s.CAT? <==> tableId == TABLE_ID_CAT)
    && (s.PMT? <==> tableId == TABLE_ID_PMT)
    && (s.DII? <==> tableId == TABLE_ID_DSMCC_DII)
    && (s.DDB? <==> tableId == TABLE_ID_DSMCC_DDB)
    && (s.StreamDescriptorSection? <==> tableId == TABLE_ID_DSMCC_STREAM_DESCRIPTOR)
    && (s.NIT? <==> tableId == TABLE_ID_NIT_ACTUAL || tableId == TABLE_ID_NIT_OTHER)
    && (s.NIT? ==> (s.actual <==> tableId == TABLE_ID_NIT_ACTUAL))
    && (s.BIT? <==> tableId == TABLE_ID_BIT)
    && (s.SDT? <==> tableId == TABLE_ID_SDT_ACTUAL || tableId == TABLE_ID_SDT_OTHER)
    && (s.SDT? ==> (s.actual <==> tableId == TABLE_ID_SDT_ACTUAL))
    && (s.EIT? <==> TABLE_ID_EIT_ACTUAL_PF <= tableId <= TABLE_ID_EIT_OTHER_SCHEDULE_EXTENDED_END)
    && (s.EIT? ==> s.tableIdNumber == tableId)
    && (s.TOT? <==> tableId == TABLE_ID_TOT)
    && (s.CDT? <==> tableId == TABLE_ID_CDT)
  }

  /** The switch of `readSection`: the section body read by the reader its table id selects. */
  function TableOf(tableId: nat, payload: bytes): (r: Decoded<Section>)
    ensures !HasReader(tableId) ==> r.Undefined?
    ensures r.Ok? ==> DispatchedTo(tableId, r.value)
  {
    if TABLE_ID_EIT_ACTUAL_PF <= tableId <= TABLE_ID_EIT_OTHER_SCHEDULE_EXTENDED_END then EITOf(tableId, payload)
    else if tableId == TABLE_ID_PAT then PATOf(payload)
    else if tableId == TABLE_ID_CAT then CATOf(payload)
    else if tableId == TABLE_ID_PMT then PMTOf(payload)
    else if tableId == TABLE_ID_DSMCC_DII then DIIOf(payload)
    else if tableId == TABLE_ID_DSMCC_DDB then DDBOf(payload)
    else if tableId == TABLE_ID_DSMCC_STREAM_DESCRIPTOR then StreamDescriptorSectionOf(payload)
    else if tableId == TABLE_ID_NIT_ACTUAL || tableId == TABLE_ID_NIT_OTHER then NITOf(tableId, payload)
    else if tableId == TABLE_ID_BIT then BITOf(payload)
    else if tableId == TABLE_ID_SDT_ACTUAL || tableId == TABLE_ID_SDT_OTHER then SDTOf(tableId, payload)
    else if tableId == TABLE_ID_CDT then CDTOf(payload)
    else if tableId == TABLE_ID_TOT then TOTOf(payload)
    else Undefined
  }

  method ReadTable(tableId: nat, payload: bytes) returns (r: Decoded<Section>)
    ensures r == TableOf(tableId, payload)
  {
    if TABLE_ID_EIT_ACTUAL_PF <= tableId <= TABLE_ID_EIT_OTHER_SCHEDULE_EXTENDED_END {
      r := ReadEIT(tableId, payload);
    } else if tableId == TABLE_ID_PAT {
      r := ReadPAT(payload);
    } else if tableId == TABLE_ID_CAT {
      r := ReadCAT(payload);
    } else if tableId == TABLE_ID_PMT {
      r := ReadPMT(payload);
    } else if tableId == TABLE_ID_DSMCC_DII {
      r := ReadDII(payload);
    } else if tableId == TABLE_ID_DSMCC_DDB {
      r := ReadDDB(payload);
    } else if tableId == TABLE_ID_DSMCC_STREAM_DESCRIPTOR {
      r := ReadStreamDescriptorSection(payload);
    } else if tableId == TABLE_ID_NIT_ACTUAL || tableId == TABLE_ID_NIT_OTHER {
      r := ReadNIT(tableId, payload);
    } else if tableId == TABLE_ID_BIT {
      r := ReadBIT(payload);
    } else if tableId == TABLE_ID_SDT_ACTUAL || tableId == TABLE_ID_SDT_OTHER {
      r := ReadSDT(tableId, payload);
    } else if tableId == TABLE_ID_CDT {
      r := ReadCDT(payload);
    } else if tableId == TABLE_ID_TOT {
      r := ReadTOT(payload);
    } else {
      // ST, ECM, EMM, SDTT and every other id
      r := Undefined;
    }
  }

  /** A section cut out of a buffer: its table id and the body between the length field and the CRC. */
  datatype SectionFrame = SectionFrame(tableId: nat, payload: bytes)

  /**
   * The framing of `readSection`: a table id, a 12-bit section length and
   * that many bytes, the last four of them the CRC, which is read and not
   * checked.  A section length of zero puts the CRC read before the start
   * of the buffer, which throws; lengths one to three leave an empty body.
   */
  function SectionFrameOf(b: bytes): (r: Decoded<SectionFrame>)
    ensures r.Undefined? <==> |b| < 3 || |b| < 3 + U16(b, 1) % 0x1000
    ensures r.Thrown? <==> 3 <= |b| && U16(b, 1) % 0x1000 == 0
    ensures r.Ok? ==> r.value.tableId == b[0] && 4 <= 3 + U16(b, 1) % 0x1000 <= |b|
    ensures r.Ok? ==> r.value.payload == if U16(b, 1) % 0x1000 < 4 then [] else b[3..U16(b, 1) % 0x1000 - 1]
  {
    if |b| < 1 + 2 then Undefined
    else
      var sectionLength := U16(b, 1) % 0x1000;
      if |b| < 3 + sectionLength then Undefined
      else if !InView(b, 3 + sectionLength - 4, 4) then Thrown
      else Ok(SectionFrame(b[0], Js.Slice(b, 3, 3 + sectionLength - 4)))
  }

  /** `readSection`: frame the section, then read its body by table id. */
  function SectionOf(b: bytes): (r: Decoded<Section>)
    ensures r.Ok? ==> 3 <= |b| && DispatchedTo(b[0], r.value)
    ensures 3 <= |b| && !HasReader(b[0]) ==> r.Undefined? || r.Thrown?
  {
    var frame :- SectionFrameOf(b);
    TableOf(frame.tableId, frame.payload)
  }

  method ReadSection(buffer: bytes) returns (r: Decoded<Section>)
    ensures r == SectionOf(buffer)
  {
    var frame :- ReadSectionFrame(buffer);
    r := ReadTable(frame.tableId, frame.payload);
  }

  method ReadSectionFrame(buffer: bytes) returns (r: Decoded<SectionFrame>)
    ensures r == SectionFrameOf(buffer)
  {
    var reader := new BinaryReader(buffer, 0);
    if !reader.CanRead(1 + 2) {
      return Undefined;
    }
    var tableId := reader.ReadUint8();
    var h := reader.ReadUint16();
    var sectionLength: int := h % 0x1000;
    if !reader.CanRead(sectionLength) {
      return Undefined;
    }
    var payload := reader.Subarray(sectionLength - 4);
    if !reader.InView(4) {
      // the CRC read at a negative offset
      return Thrown;
    }
    var crc32 := reader.ReadUint32();
    r := Ok(SectionFrame(tableId, payload));
  }

  // ---------------------------------------------------------------------
  // Properties

  /**
   * A section laid out as its table id, a length word whose top four bits
   * are anything and whose 12 low bits count the body and the CRC, the body
   * and four CRC bytes reads back as that table id and body, whatever follows.
   */
  lemma {:induction false} SectionFrameRoundTrip(tableId: byte, reserved: nat, payload: bytes, crc: bytes, rest: bytes)
    requires reserved < 16 && |payload| + 4 < 0x1000 && |crc| == 4
    ensures SectionFrameOf([tableId] + Be16(reserved * 0x1000 + |payload| + 4) + payload + crc + rest)
            == Ok(SectionFrame(tableId, payload))
  {
    var w := Be16(reserved * 0x1000 + |payload| + 4);
    var b := [tableId] + w + payload + crc + rest;
    assert b == [tableId] + w + (payload + crc + rest);
    U16Shift([tableId], w, payload + crc + rest);
    DivExact(reserved, |payload| + 4, 0x1000);
    assert b[3..3 + |payload|] == payload;
  }

  /** A section length of one to three leaves an empty body, and every reader finds an empty body undefined. */
  lemma {:induction false} ShortSectionUndefined(b: bytes)
    requires 3 <= |b| && 1 <= U16(b, 1) % 0x1000 <= 3 && 3 + U16(b, 1) % 0x1000 <= |b|
    ensures SectionOf(b).Undefined?
  {
    assert SectionFrameOf(b) == Ok(SectionFrame(b[0], []));
    assert TableOf(b[0], []).Undefined?;
  }

  /** A program a PAT entry can carry: a PMT needs a program number other than 0; a PID has 13 bits. */
  predicate WellFormedProgram(p: Program)
  {
    match p
    case NetworkProgram(pid) => pid < 0x2000
    case ProgramMap(n, pid) => 0 < n < 0x1_0000 && pid < 0x2000
  }

  /** The 4-byte PAT entry of p, with the three reserved bits above the PID set. */
  ghost function EncodeProgram(p: Program): (r: bytes)
    requires WellFormedProgram(p)
    ensures |r| == 4
  {
    match p
    case NetworkProgram(pid) => Be16(0) + Be16(0xe000 + pid)
    case ProgramMap(n, pid) => Be16(n) + Be16(0xe000 + pid)
  }

  ghost function EncodePrograms(ps: seq<Program>): (r: bytes)
    requires forall i :: 0 <= i < |ps| ==> WellFormedProgram(ps[i])
    ensures |r| == 4 * |ps|
  {
    if ps == [] then [] else EncodeProgram(ps[0]) + EncodePrograms(ps[1..])
  }

  lemma {:induction false} ProgramRoundTrip(p: Program, b: bytes, o: nat)
    requires WellFormedProgram(p) && At(b, o, EncodeProgram(p))
    ensures o + 4 <= |b| && ProgramAt(b, o) == p
  {
    var pid := if p.NetworkProgram? then p.networkPID else p.programMapPID;
    var n := if p.NetworkProgram? then 0 else p.programNumber;
    assert EncodeProgram(p) == Be16(n) + Be16(0xe000 + pid);
    AtSplit(b, o, Be16(n), Be16(0xe000 + pid));
    AtU16(b, o, Be16(n));
    AtU16(b, o + 2, Be16(0xe000 + pid));
    DivExact(7, pid, 0x2000);
  }

  lemma {:induction false} EncodedProgramsAt(ps: seq<Program>, t: bytes, i: nat)
    requires forall j :: 0 <= j < |ps| ==> WellFormedProgram(ps[j])
    requires i < |ps|
    ensures At(EncodePrograms(ps) + t, 4 * i, EncodeProgram(ps[i]))
    decreases i
  {
    var head, rest := EncodeProgram(ps[0]), EncodePrograms(ps[1..]) + t;
    var b := EncodePrograms(ps) + t;
    assert b == head + rest;
    if i == 0 {
      AtPrefix(head, rest);
    } else {
      EncodedProgramsAt(ps[1..], t, i - 1);
      assert ps[1..][i - 1] == ps[i];
      forall k | 0 <= k < 4
        ensures b[4 * i + k] == EncodeProgram(ps[i])[k]
      {
        assert b[4 * i + k] == rest[4 * (i - 1) + k];
      }
    }
  }

  /** The program loop reads back every encoded entry, in order, and ignores a trailer shorter than an entry. */
  lemma {:induction false} ProgramsRoundTrip(ps: seq<Program>, t: bytes)
    requires forall i :: 0 <= i < |ps| ==> WellFormedProgram(ps[i])
    requires |t| < 4
    ensures Programs(EncodePrograms(ps) + t, 0) == ps
  {
    var b := EncodePrograms(ps) + t;
    DivExact(|ps|, |t|, 4);
    assert |Programs(b, 0)| == |ps|;
    forall i | 0 <= i < |ps|
      ensures Programs(b, 0)[i] == ps[i]
    {
      EncodedProgramsAt(ps, t, i);
      ProgramRoundTrip(ps[i], b, 4 * i);
      ProgramsAt(b, 0, i);
    }
  }

  /**
   * The `<=` chain against the range starts measures a schedule table id
   * from the start of the range after its own, except for the range starts
   * themselves and the ids of the last range: only those get their place
   * inside their own range of eight; the others get an index from -7 to -1.
   */
  lemma {:induction false} EITTableIndexAsWritten(tableId: nat)
    requires TABLE_ID_EIT_ACTUAL_SCHEDULE_BASIC_BEGIN <= tableId <= TABLE_ID_EIT_OTHER_SCHEDULE_EXTENDED_END
    ensures TableIndexOf(tableId) == tableId % 8 <==> tableId % 8 == 0 || tableId > TABLE_ID_EIT_OTHER_SCHEDULE_EXTENDED_BEGIN
    ensures tableId % 8 != 0 && tableId < TABLE_ID_EIT_OTHER_SCHEDULE_EXTENDED_BEGIN ==> -7 <= TableIndexOf(tableId) < 0
  {
    var q := tableId / 8;
    DivExact(q, tableId % 8, 8);
  }

  /** `other` is set for every schedule id past the actual extended range start, so also for 0x59 to 0x5f. */
  lemma {:induction false} EITOtherAsWritten(tableId: nat)
    requires TABLE_ID_EIT_ACTUAL_PF <= tableId <= TABLE_ID_EIT_OTHER_SCHEDULE_EXTENDED_END
    ensures OtherOf(tableId) <==> tableId == TABLE_ID_EIT_OTHER_PF || tableId > TABLE_ID_EIT_ACTUAL_SCHEDULE_EXTENDED_BEGIN
  {
  }

  /** The EIT name: p/f for 0x4e and 0x4f, "basic" for the two basic ranges, "extended" for the two extended ones. */
  lemma {:induction false} EITKindRanges(tableId: nat)
    requires TABLE_ID_EIT_ACTUAL_PF <= tableId <= TABLE_ID_EIT_OTHER_SCHEDULE_EXTENDED_END
    ensures KindOf(tableId) == PresentFollowing <==> tableId <= TABLE_ID_EIT_OTHER_PF
    ensures KindOf(tableId) == ScheduleBasic
            <==> (TABLE_ID_EIT_ACTUAL_SCHEDULE_BASIC_BEGIN <= tableId <= TABLE_ID_EIT_ACTUAL_SCHEDULE_BASIC_END
                  || TABLE_ID_EIT_OTHER_SCHEDULE_BASIC_BEGIN <= tableId <= TABLE_ID_EIT_OTHER_SCHEDULE_BASIC_END)
  {
    var q := tableId / 0x10;
    DivExact(q, tableId % 0x10, 0x10);
  }

  /** A DII module list that reads back holds exactly `numberOfModules` modules. */
  lemma {:induction false} ModuleListCount(m: bytes, p: nat)
    requires ModuleListAt(m, p).Some?
    ensures p + 2 <= |m| && |ModuleListAt(m, p).value.modules| == U16(m, p)
  {
    CountedLength(ModuleAt, m, p + 2, U16(m, p));
  }
}
