// The wire forms of the entries the MMT-SI table readers of src/mmt-si.ts
// loop over, and the round trips of those loops and of the M2 section
// tables that hold them: an entry written with its fixed fields and its
// descriptor bytes is read back as that entry, a run of entries as the list
// of them, and a table laid out field by field as that table.  Reserved
// bits are written as zeros; the readers mask them off.
module MmtSiWire {
  import opened Js
  import opened Decoding
  import opened Layouts
  import opened Sections
  import opened MmtSiDescriptor
  import opened MmtSi

  /** Descriptor bytes a 12-bit length can count, which the descriptor loop reads as ds. */
  predicate DescriptorWire(ds: seq<MMTSIDescriptor>, raw: bytes)
  {
    |raw| < 0x1000 && DescriptorsFrom(raw, 0) == Ok(ds)
  }

  /** Found descriptor bytes are what a reader of that length cuts out. */
  lemma {:induction false} DescriptorsFound(b: bytes, p: nat, ds: seq<MMTSIDescriptor>, raw: bytes)
    requires DescriptorsFrom(raw, 0) == Ok(ds) && At(b, p, raw)
    ensures DescriptorsIn(b, p, |raw|) == Ok(ds)
  {
    AtSlice(b, p, raw);
  }

  // ---------------------------------------------------------------------
  // MH-EIT

  /** A start time on the wire: all ones bits when absent. */
  function StartWord(startTime: Option<nat>): (r: nat)
    ensures startTime.Some? && startTime.value < 0xff_ffff_ffff ==> StartTimeOf(r) == startTime
    ensures startTime.None? ==> StartTimeOf(r) == None
  {
    if startTime.None? then 0xff_ffff_ffff else startTime.value
  }

  /** A duration on the wire: all ones bits when absent. */
  function DurationWord(duration: Option<nat>): (r: nat)
    ensures duration.Some? && duration.value < 0xff_ffff ==> DurationOf(r) == duration
    ensures duration.None? ==> DurationOf(r) == None
  {
    if duration.None? then 0xff_ffff else duration.value
  }

  /** An event whose fields fit their widths, a present time or duration not being all ones bits. */
  predicate EventWire(w: (MHEvent, bytes))
  {
    var e := w.0;
    e.eventId < 0x1_0000 && (e.startTime.Some? ==> e.startTime.value < 0xff_ffff_ffff)
    && (e.duration.Some? ==> e.duration.value < 0xff_ffff) && e.runningStatus < 8 && DescriptorWire(e.descriptors, w.1)
  }

  /** One event on the wire: id, start time, duration and status word, then the descriptor bytes. */
  ghost function EncodeEvent(w: (MHEvent, bytes)): (r: bytes)
    ensures |r| == 12 + |w.1|
  {
    Word(w.0.eventId) + Word40(StartWord(w.0.startTime)) + Word24(DurationWord(w.0.duration))
    + Word(StatusWord(w.0.runningStatus, w.0.freeCAMode, |w.1|)) + w.1
  }

  /** The fields of an encoded event found at p. */
  lemma {:induction false} EventFound(b: bytes, p: nat, w: (MHEvent, bytes))
    requires EventWire(w) && At(b, p, EncodeEvent(w))
    ensures p + 12 + |w.1| <= |b| && U16(b, p) == w.0.eventId && U40(b, p + 2) == StartWord(w.0.startTime)
    ensures U24(b, p + 7) == DurationWord(w.0.duration) && U16(b, p + 10) == StatusWord(w.0.runningStatus, w.0.freeCAMode, |w.1|)
    ensures b[p + 12..p + 12 + |w.1|] == w.1
  {
    var s, raw := w.0, w.1;
    var id, start, dur := Word(s.eventId), Word40(StartWord(s.startTime)), Word24(DurationWord(s.duration));
    var status := StatusWord(s.runningStatus, s.freeCAMode, |raw|);
    StatusWordRead(s.runningStatus, s.freeCAMode, |raw|);
    AtSplit(b, p, id + start + dur + Word(status), raw);
    AtSplit(b, p, id + start + dur, Word(status));
    AtSplit(b, p, id + start, dur);
    AtSplit(b, p, id, start);
    WordFound(b, p, s.eventId);
    Word40At(b, p + 2, StartWord(s.startTime));
    Word24At(b, p + 7, DurationWord(s.duration));
    WordFound(b, p + 10, status);
    AtSlice(b, p + 12, raw);
  }

  /** An encoded event found at p is read. */
  lemma {:induction false} EventReadBack(b: bytes, p: nat, w: (MHEvent, bytes))
    requires EventWire(w) && At(b, p, EncodeEvent(w))
    ensures EventAt(b, p) == Read(w.0, p + 12 + |w.1|)
  {
    var s, raw := w.0, w.1;
    EventFound(b, p, w);
    StatusWordRead(s.runningStatus, s.freeCAMode, |raw|);
    assert EventHeadAt(b, p) == s.(descriptors := []);
    assert DescriptorsIn(b, p + 12, |raw|) == Ok(s.descriptors);
  }

  /** Every encoded event of ws is read wherever it is found. */
  lemma {:induction false} EventsRead(b: bytes, ws: seq<(MHEvent, bytes)>)
    requires forall w :: w in ws ==> EventWire(w)
    ensures Reads(b, EventAt, EncodeEvent, First, ws)
  {
    forall w, p: nat | w in ws && At(b, p, EncodeEvent(w))
      ensures EventAt(b, p) == Read(First(w), p + |EncodeEvent(w)|)
    {
      EventReadBack(b, p, w);
    }
  }

  /** A event read at p is kept, and the loop goes on after it. */
  lemma {:induction false} EventWindow(b: bytes, p: nat, x: MHEvent, next: nat)
    requires EventAt(b, p) == Read(x, next)
    ensures EventsFrom(b, p) == Chain([x], EventsFrom(b, next))
  {
  }

  /** The event loop ends, with nothing more, where fewer bytes than a event head are left. */
  lemma {:induction false} EventsEnd(b: bytes, o: nat)
    requires |b| < o + 12
    ensures EventsFrom(b, o) == Ok([])
  {
  }

  /** Wherever the event step reads an entry, the loop keeps it and goes on after it. */
  lemma {:induction false} EventsUnfold(b: bytes)
    ensures Unfolds(b, EventsFrom, EventAt)
  {
    forall p: nat, x, next: nat | EventAt(b, p) == Read(x, next)
      ensures EventsFrom(b, p) == Chain([x], EventsFrom(b, next))
    {
      EventWindow(b, p, x, next);
    }
  }

  /** The loop over a run of events its step reads. */
  lemma {:induction false} EventsWalk(b: bytes, o: nat, ws: seq<(MHEvent, bytes)>)
    requires Reads(b, EventAt, EncodeEvent, First, ws) && At(b, o, Laid(EncodeEvent, ws))
    ensures EventsFrom(b, o) == Chain(Values(First, ws), EventsFrom(b, o + |Laid(EncodeEvent, ws)|))
  {
    EventsUnfold(b);
    LaidWalk(b, EventsFrom, EventAt, EncodeEvent, First, ws, o);
  }

  /** Wherever fewer bytes than a event head are left, the loop ends. */
  lemma {:induction false} EventsEnds(b: bytes)
    ensures Ends(b, EventsFrom, 12)
  {
    forall p: nat | |b| < p + 12
      ensures EventsFrom(b, p) == Ok([])
    {
      EventsEnd(b, p);
    }
  }

  /** The loop over a run of events its step reads, followed by too few bytes for another. */
  lemma {:induction false} EventsWalkOut(b: bytes, o: nat, ws: seq<(MHEvent, bytes)>)
    requires Reads(b, EventAt, EncodeEvent, First, ws) && At(b, o, Laid(EncodeEvent, ws))
    requires |b| < o + |Laid(EncodeEvent, ws)| + 12
    ensures EventsFrom(b, o) == Ok(Values(First, ws))
  {
    EventsUnfold(b);
    EventsEnds(b);
    LaidWhole(b, EventsFrom, EventAt, EncodeEvent, First, ws, o, 12);
  }

  /** The event loop reads a run of encoded events, then goes on after them. */
  lemma {:induction false} EventsRoundTrip(b: bytes, o: nat, ws: seq<(MHEvent, bytes)>)
    requires forall w :: w in ws ==> EventWire(w)
    requires At(b, o, Laid(EncodeEvent, ws))
    ensures EventsFrom(b, o) == Chain(Values(First, ws), EventsFrom(b, o + |Laid(EncodeEvent, ws)|))
  {
    EventsRead(b, ws);
    EventsWalk(b, o, ws);
  }

  /** A run of encoded events followed by fewer than 12 bytes is read as exactly those events. */
  lemma {:induction false} EventsLaidOut(b: bytes, o: nat, ws: seq<(MHEvent, bytes)>)
    requires forall w :: w in ws ==> EventWire(w)
    requires At(b, o, Laid(EncodeEvent, ws)) && |b| < o + |Laid(EncodeEvent, ws)| + 12
    ensures EventsFrom(b, o) == Ok(Values(First, ws))
  {
    EventsRead(b, ws);
    EventsWalkOut(b, o, ws);
  }

  /**
   * An EIT's 11 fixed bytes: service id, header, TLV stream id, original
   * network id, segment last section number and last table id.
   */
  function EITHead(serviceId: nat, h: SectionHeader, tlvStreamId: nat, originalNetworkId: nat,
                   segmentLastSectionNumber: nat, lastTableId: nat): (r: bytes)
    ensures |r| == 11
  {
    Word(serviceId) + EncodeSectionHeader(h) + Word(tlvStreamId) + Word(originalNetworkId)
    + [(segmentLastSectionNumber % 0x100) as byte, (lastTableId % 0x100) as byte]
  }

  /** The fields of an EIT laid out from its parts. */
  lemma {:induction false} EITFound(head: bytes, serviceId: nat, h: SectionHeader, tlvStreamId: nat, originalNetworkId: nat,
                                    segmentLastSectionNumber: nat, lastTableId: nat, loop: bytes, t: bytes)
    requires serviceId < 0x1_0000 && WellFormedHeader(h) && tlvStreamId < 0x1_0000 && originalNetworkId < 0x1_0000
    requires segmentLastSectionNumber < 0x100 && lastTableId < 0x100
    requires head == EITHead(serviceId, h, tlvStreamId, originalNetworkId, segmentLastSectionNumber, lastTableId)
    ensures var d := head + loop + t;
      11 <= |d| && U16(d, 0) == serviceId && SectionHeaderAt(d, 2) == h && U16(d, 5) == tlvStreamId
      && U16(d, 7) == originalNetworkId && d[9] == segmentLastSectionNumber && d[10] == lastTableId && At(d, 11, loop)
  {
    var d := head + loop + t;
    var e := EncodeSectionHeader(h);
    assert d[0] == head[0] == Word(serviceId)[0] && d[1] == head[1] == Word(serviceId)[1];
    assert d[2] == head[2] == e[0] && d[3] == head[3] == e[1] && d[4] == head[4] == e[2];
    assert d[5] == head[5] == Word(tlvStreamId)[0] && d[6] == head[6] == Word(tlvStreamId)[1];
    assert d[7] == head[7] == Word(originalNetworkId)[0] && d[8] == head[8] == Word(originalNetworkId)[1];
    assert d[9] == head[9] && d[10] == head[10];
    WordAt(d, 0, serviceId);
    WordAt(d, 5, tlvStreamId);
    WordAt(d, 7, originalNetworkId);
    SectionHeaderRoundTrip(d, 2, h);
    AtMiddle(head, loop, t);
  }

  /**
   * An EIT written as its fixed fields and its events reads back as that
   * table, its name and indexes taken from the two table ids, when fewer
   * bytes than an event head follow.
   */
  lemma {:induction false} EITRoundTrip(tableId: nat, serviceId: nat, h: SectionHeader, tlvStreamId: nat,
                                        originalNetworkId: nat, segmentLastSectionNumber: nat, lastTableId: nat,
                                        ws: seq<(MHEvent, bytes)>, t: bytes)
    requires serviceId < 0x1_0000 && WellFormedHeader(h) && tlvStreamId < 0x1_0000 && originalNetworkId < 0x1_0000
    requires segmentLastSectionNumber < 0x100 && lastTableId < 0x100
    requires forall w :: w in ws ==> EventWire(w)
    requires |t| < 12
    ensures EITOf(tableId, EITHead(serviceId, h, tlvStreamId, originalNetworkId, segmentLastSectionNumber, lastTableId)
                           + Laid(EncodeEvent, ws) + t)
            == Ok(EIT(EITKindOf(tableId), tableId, TableIndex(tableId), serviceId, h, tlvStreamId, originalNetworkId,
                      segmentLastSectionNumber, lastTableId, TableIndex(lastTableId), Values(First, ws)))
  {
    var head := EITHead(serviceId, h, tlvStreamId, originalNetworkId, segmentLastSectionNumber, lastTableId);
    var loop := Laid(EncodeEvent, ws);
    var d := head + loop + t;
    EITFound(head, serviceId, h, tlvStreamId, originalNetworkId, segmentLastSectionNumber, lastTableId, loop, t);
    EventsLaidOut(d, 11, ws);
  }

  // ---------------------------------------------------------------------
  // MH-SDT

  /** The flag byte of a service: three bits of EIT user defined flags, three reserved, then the two EIT flags. */
  function ServiceFlags(s: MHService): (r: nat)
  {
    s.eitUserDefinedFlags * 0x20 + Bit(s.eitScheduleFlag) * 2 + Bit(s.eitPresentFollowingFlag)
  }

  /** The three fields come back out of the flag byte. */
  lemma {:induction false} ServiceFlagsRead(s: MHService)
    requires s.eitUserDefinedFlags < 8
    ensures var f := ServiceFlags(s);
      f < 0x100 && f / 0x20 % 8 == s.eitUserDefinedFlags && (f / 2 % 2 == 1 <==> s.eitScheduleFlag)
      && (f % 2 == 1 <==> s.eitPresentFollowingFlag)
  {
  }

  /** A service whose id, user defined flags and running status fit, and whose descriptors a 12-bit length counts. */
  predicate ServiceWire(w: (MHService, bytes))
  {
    w.0.serviceId < 0x1_0000 && w.0.eitUserDefinedFlags < 8 && w.0.runningStatus < 8 && DescriptorWire(w.0.descriptors, w.1)
  }

  /** One service on the wire: its id, its flag byte and its status word, then the descriptor bytes. */
  ghost function EncodeService(w: (MHService, bytes)): (r: bytes)
    ensures |r| == 5 + |w.1|
  {
    Word(w.0.serviceId) + [(ServiceFlags(w.0) % 0x100) as byte]
    + Word(StatusWord(w.0.runningStatus, w.0.freeCAMode, |w.1|)) + w.1
  }

  /** The fields of an encoded service found at p. */
  lemma {:induction false} ServiceFound(b: bytes, p: nat, s: MHService, raw: bytes)
    requires s.serviceId < 0x1_0000 && s.eitUserDefinedFlags < 8 && s.runningStatus < 8 && |raw| < 0x1000
    requires At(b, p, EncodeService((s, raw)))
    ensures p + 5 + |raw| <= |b| && U16(b, p) == s.serviceId && b[p + 2] == ServiceFlags(s)
    ensures U16(b, p + 3) == StatusWord(s.runningStatus, s.freeCAMode, |raw|) && b[p + 5..p + 5 + |raw|] == raw
  {
    var e := EncodeService((s, raw));
    var w := StatusWord(s.runningStatus, s.freeCAMode, |raw|);
    ServiceFlagsRead(s);
    StatusWordRead(s.runningStatus, s.freeCAMode, |raw|);
    assert b[p] == e[0] && b[p + 1] == e[1] && b[p + 2] == e[2] && b[p + 3] == e[3] && b[p + 4] == e[4];
    WordAt(b, p, s.serviceId);
    WordAt(b, p + 3, w);
    assert e == e[..5] + raw;
    AtSplit(b, p, e[..5], raw);
    AtSlice(b, p + 5, raw);
  }

  /** An encoded service found at p is read. */
  lemma {:induction false} ServiceReadBack(b: bytes, p: nat, w: (MHService, bytes))
    requires ServiceWire(w) && At(b, p, EncodeService(w))
    ensures ServiceAt(b, p) == Read(w.0, p + 5 + |w.1|)
  {
    var s, raw := w.0, w.1;
    ServiceFound(b, p, s, raw);
    ServiceHeadIs(b, p, s, |raw|);
    assert DescriptorsIn(b, p + 5, |raw|) == Ok(s.descriptors);
  }

  /** The head of a service read where its id, flag byte and status word were written is that service, without descriptors. */
  lemma {:induction false} ServiceHeadIs(b: bytes, p: nat, s: MHService, n: nat)
    requires s.eitUserDefinedFlags < 8 && s.runningStatus < 8 && n < 0x1000
    requires p + 5 <= |b| && U16(b, p) == s.serviceId && b[p + 2] == ServiceFlags(s)
    requires U16(b, p + 3) == StatusWord(s.runningStatus, s.freeCAMode, n)
    ensures ServiceHeadAt(b, p) == s.(descriptors := []) && U16(b, p + 3) % 0x1000 == n
  {
    ServiceFlagsRead(s);
    StatusWordRead(s.runningStatus, s.freeCAMode, n);
  }

  /** Every encoded service of ws is read wherever it is found. */
  lemma {:induction false} ServicesRead(b: bytes, ws: seq<(MHService, bytes)>)
    requires forall w :: w in ws ==> ServiceWire(w)
    ensures Reads(b, ServiceAt, EncodeService, First, ws)
  {
    forall w, p: nat | w in ws && At(b, p, EncodeService(w))
      ensures ServiceAt(b, p) == Read(First(w), p + |EncodeService(w)|)
    {
      ServiceReadBack(b, p, w);
    }
  }

  /** A service read at p is kept, and the loop goes on after it. */
  lemma {:induction false} ServiceWindow(b: bytes, p: nat, x: MHService, next: nat)
    requires ServiceAt(b, p) == Read(x, next)
    ensures ServicesFrom(b, p) == Chain([x], ServicesFrom(b, next))
  {
  }

  /** The service loop ends, with nothing more, where fewer bytes than a service head are left. */
  lemma {:induction false} ServicesEnd(b: bytes, o: nat)
    requires |b| < o + 5
    ensures ServicesFrom(b, o) == Ok([])
  {
  }

  /** Wherever the service step reads an entry, the loop keeps it and goes on after it. */
  lemma {:induction false} ServicesUnfold(b: bytes)
    ensures Unfolds(b, ServicesFrom, ServiceAt)
  {
    forall p: nat, x, next: nat | ServiceAt(b, p) == Read(x, next)
      ensures ServicesFrom(b, p) == Chain([x], ServicesFrom(b, next))
    {
      ServiceWindow(b, p, x, next);
    }
  }

  /** The loop over a run of services its step reads. */
  lemma {:induction false} ServicesWalk(b: bytes, o: nat, ws: seq<(MHService, bytes)>)
    requires Reads(b, ServiceAt, EncodeService, First, ws) && At(b, o, Laid(EncodeService, ws))
    ensures ServicesFrom(b, o) == Chain(Values(First, ws), ServicesFrom(b, o + |Laid(EncodeService, ws)|))
  {
    ServicesUnfold(b);
    LaidWalk(b, ServicesFrom, ServiceAt, EncodeService, First, ws, o);
  }

  /** Wherever fewer bytes than a service head are left, the loop ends. */
  lemma {:induction false} ServicesEnds(b: bytes)
    ensures Ends(b, ServicesFrom, 5)
  {
    forall p: nat | |b| < p + 5
      ensures ServicesFrom(b, p) == Ok([])
    {
      ServicesEnd(b, p);
    }
  }

  /** The loop over a run of services its step reads, followed by too few bytes for another. */
  lemma {:induction false} ServicesWalkOut(b: bytes, o: nat, ws: seq<(MHService, bytes)>)
    requires Reads(b, ServiceAt, EncodeService, First, ws) && At(b, o, Laid(EncodeService, ws))
    requires |b| < o + |Laid(EncodeService, ws)| + 5
    ensures ServicesFrom(b, o) == Ok(Values(First, ws))
  {
    ServicesUnfold(b);
    ServicesEnds(b);
    LaidWhole(b, ServicesFrom, ServiceAt, EncodeService, First, ws, o, 5);
  }

  /** The service loop reads a run of encoded services, then goes on after them. */
  lemma {:induction false} ServicesRoundTrip(b: bytes, o: nat, ws: seq<(MHService, bytes)>)
    requires forall w :: w in ws ==> ServiceWire(w)
    requires At(b, o, Laid(EncodeService, ws))
    ensures ServicesFrom(b, o) == Chain(Values(First, ws), ServicesFrom(b, o + |Laid(EncodeService, ws)|))
  {
    ServicesRead(b, ws);
    ServicesWalk(b, o, ws);
  }

  /** A run of encoded services followed by fewer than 5 bytes is read as exactly those services. */
  lemma {:induction false} ServicesLaidOut(b: bytes, o: nat, ws: seq<(MHService, bytes)>)
    requires forall w :: w in ws ==> ServiceWire(w)
    requires At(b, o, Laid(EncodeService, ws)) && |b| < o + |Laid(EncodeService, ws)| + 5
    ensures ServicesFrom(b, o) == Ok(Values(First, ws))
  {
    ServicesRead(b, ws);
    ServicesWalkOut(b, o, ws);
  }

  /** An SDT's 8 fixed bytes: TLV stream id, header, original network id and a reserved byte. */
  function SDTHead(tlvStreamId: nat, h: SectionHeader, originalNetworkId: nat): (r: bytes)
    ensures |r| == 8
  {
    Word(tlvStreamId) + EncodeSectionHeader(h) + Word(originalNetworkId) + [0]
  }

  /** The fields of an SDT laid out from its parts. */
  lemma {:induction false} SDTFound(tlvStreamId: nat, h: SectionHeader, originalNetworkId: nat, loop: bytes, t: bytes)
    requires tlvStreamId < 0x1_0000 && WellFormedHeader(h) && originalNetworkId < 0x1_0000
    ensures var d := SDTHead(tlvStreamId, h, originalNetworkId) + loop + t;
      8 <= |d| && U16(d, 0) == tlvStreamId && SectionHeaderAt(d, 2) == h && U16(d, 5) == originalNetworkId && At(d, 8, loop)
  {
    var head := SDTHead(tlvStreamId, h, originalNetworkId);
    var d := head + loop + t;
    var e := EncodeSectionHeader(h);
    assert d[0] == head[0] == Word(tlvStreamId)[0] && d[1] == head[1] == Word(tlvStreamId)[1];
    assert d[2] == head[2] == e[0] && d[3] == head[3] == e[1] && d[4] == head[4] == e[2];
    assert d[5] == head[5] == Word(originalNetworkId)[0] && d[6] == head[6] == Word(originalNetworkId)[1];
    WordAt(d, 0, tlvStreamId);
    WordAt(d, 5, originalNetworkId);
    SectionHeaderRoundTrip(d, 2, h);
    AtMiddle(head, loop, t);
  }

  /**
   * An SDT written as its fixed fields and its services reads back as that
   * table, actual exactly for table id 0x9f, when fewer bytes than a
   * service head follow.
   */
  lemma {:induction false} SDTRoundTrip(tableId: nat, tlvStreamId: nat, h: SectionHeader, originalNetworkId: nat,
                                        ws: seq<(MHService, bytes)>, t: bytes)
    requires tlvStreamId < 0x1_0000 && WellFormedHeader(h) && originalNetworkId < 0x1_0000
    requires forall w :: w in ws ==> ServiceWire(w)
    requires |t| < 5
    ensures SDTOf(tableId, SDTHead(tlvStreamId, h, originalNetworkId) + Laid(EncodeService, ws) + t)
            == Ok(SDT(tableId == MMT_SI_TABLE_MH_SDT_ACTUAL, tlvStreamId, h, originalNetworkId, Values(First, ws)))
  {
    var loop := Laid(EncodeService, ws);
    var d := SDTHead(tlvStreamId, h, originalNetworkId) + loop + t;
    SDTFound(tlvStreamId, h, originalNetworkId, loop, t);
    ServicesLaidOut(d, 8, ws);
  }

  // ---------------------------------------------------------------------
  // MH-CDT

  /** A data module whose fields fit their widths. */
  predicate ModuleWire(m: DataModule)
  {
    m.logoType < 0x100 && m.logoId < 0x200 && m.logoVersion < 0x1000 && |m.data| < 0x1_0000
  }

  /** The data module on the wire: logo type, logo id, logo version and data size, then the data. */
  function EncodeDataModule(m: DataModule): (r: bytes)
    ensures |r| == 7 + |m.data|
  {
    [(m.logoType % 0x100) as byte] + Word(m.logoId) + Word(m.logoVersion) + Word(|m.data|) + m.data
  }

  /** An encoded data module found at p is read, whatever follows it. */
  lemma {:induction false} DataModuleRoundTrip(d: bytes, p: nat, m: DataModule)
    requires ModuleWire(m) && At(d, p, EncodeDataModule(m))
    ensures DataModuleAt(d, p) == Some(m)
  {
    var e := EncodeDataModule(m);
    assert d[p] == e[0] && d[p + 1] == e[1] && d[p + 2] == e[2] && d[p + 3] == e[3] && d[p + 4] == e[4]
      && d[p + 5] == e[5] && d[p + 6] == e[6];
    WordAt(d, p + 1, m.logoId);
    WordAt(d, p + 3, m.logoVersion);
    WordAt(d, p + 5, |m.data|);
    assert e == e[..7] + m.data;
    AtSplit(d, p, e[..7], m.data);
    AtSlice(d, p + 7, m.data);
    assert U16(d, p + 1) % 0x200 == m.logoId && U16(d, p + 3) % 0x1000 == m.logoVersion;
  }

  /** A CDT's 10 fixed bytes: download data id, header, original network id, data type and descriptor length. */
  function CDTHead(downloadDataId: nat, h: SectionHeader, originalNetworkId: nat, dataType: nat, descriptorsLength: nat): (r: bytes)
    ensures |r| == 10
  {
    Word(downloadDataId) + EncodeSectionHeader(h) + Word(originalNetworkId) + [(dataType % 0x100) as byte]
    + Word(descriptorsLength)
  }

  /** The fields of a CDT laid out from its parts. */
  lemma {:induction false} CDTFound(downloadDataId: nat, h: SectionHeader, originalNetworkId: nat, dataType: nat,
                                    raw: bytes, moduleBytes: bytes, t: bytes)
    requires downloadDataId < 0x1_0000 && WellFormedHeader(h) && originalNetworkId < 0x1_0000 && dataType < 0x100
    requires |raw| < 0x1000
    ensures var d := CDTHead(downloadDataId, h, originalNetworkId, dataType, |raw|) + raw + moduleBytes + t;
      10 + |raw| <= |d| && U16(d, 0) == downloadDataId && SectionHeaderAt(d, 2) == h && U16(d, 5) == originalNetworkId
      && d[7] == dataType && U16(d, 8) == |raw| && At(d, 10, raw) && At(d, 10 + |raw|, moduleBytes)
  {
    var head := CDTHead(downloadDataId, h, originalNetworkId, dataType, |raw|);
    var d := head + raw + moduleBytes + t;
    var e := EncodeSectionHeader(h);
    assert d[0] == head[0] == Word(downloadDataId)[0] && d[1] == head[1] == Word(downloadDataId)[1];
    assert d[2] == head[2] == e[0] && d[3] == head[3] == e[1] && d[4] == head[4] == e[2];
    assert d[5] == head[5] == Word(originalNetworkId)[0] && d[6] == head[6] == Word(originalNetworkId)[1];
    assert d[7] == head[7];
    assert d[8] == head[8] == Word(|raw|)[0] && d[9] == head[9] == Word(|raw|)[1];
    WordAt(d, 0, downloadDataId);
    WordAt(d, 5, originalNetworkId);
    WordAt(d, 8, |raw|);
    SectionHeaderRoundTrip(d, 2, h);
    assert d == head + raw + (moduleBytes + t);
    AtMiddle(head, raw, moduleBytes + t);
    AtMiddle(head + raw, moduleBytes, t);
  }

  /** A CDT body whose fields read as given, whose descriptors and data module decode, is that CDT. */
  lemma {:induction false} CDTOfParts(d: bytes, downloadDataId: nat, h: SectionHeader, originalNetworkId: nat,
                                      dataType: nat, n: nat, ds: seq<MMTSIDescriptor>, m: DataModule)
    requires n < 0x1000 && 10 + n <= |d|
    requires U16(d, 0) == downloadDataId && SectionHeaderAt(d, 2) == h && U16(d, 5) == originalNetworkId
    requires d[7] == dataType && U16(d, 8) == n
    requires DescriptorsIn(d, 10, n) == Ok(ds) && DataModuleAt(d, 10 + n) == Some(m)
    ensures CDTOf(d) == Ok(CDT(downloadDataId, h, originalNetworkId, dataType, ds, m))
  {
    var k := U16(d, 8) % 0x1000;
    assert k == n;
    assert DescriptorsIn(d, 10, k) == Ok(ds) && DataModuleAt(d, 10 + k) == Some(m);
  }

  /**
   * A CDT written as its fixed fields, its descriptors and its data module
   * reads back as that table, whatever follows the module.
   */
  lemma {:induction false} CDTRoundTrip(downloadDataId: nat, h: SectionHeader, originalNetworkId: nat, dataType: nat,
                                        ds: seq<MMTSIDescriptor>, raw: bytes, m: DataModule, t: bytes)
    requires downloadDataId < 0x1_0000 && WellFormedHeader(h) && originalNetworkId < 0x1_0000 && dataType < 0x100
    requires DescriptorWire(ds, raw) && ModuleWire(m)
    ensures CDTOf(CDTHead(downloadDataId, h, originalNetworkId, dataType, |raw|) + raw + EncodeDataModule(m) + t)
            == Ok(CDT(downloadDataId, h, originalNetworkId, dataType, ds, m))
  {
    var d := CDTHead(downloadDataId, h, originalNetworkId, dataType, |raw|) + raw + EncodeDataModule(m) + t;
    var n := |raw|;
    CDTFound(downloadDataId, h, originalNetworkId, dataType, raw, EncodeDataModule(m), t);
    DescriptorsFound(d, 10, ds, raw);
    DataModuleRoundTrip(d, 10 + n, m);
    CDTOfParts(d, downloadDataId, h, originalNetworkId, dataType, n, ds, m);
  }

  // ---------------------------------------------------------------------
  // MH-TOT and EMT

  /**
   * A TOT written as its 40-bit JST time, its descriptor length and its
   * descriptors reads back as that table, whatever follows.
   */
  lemma {:induction false} TOTRoundTrip(jstTime: nat, ds: seq<MMTSIDescriptor>, raw: bytes, t: bytes)
    requires jstTime < 0x1_0000_0000 * 0x100 && DescriptorWire(ds, raw)
    ensures TOTOf(Word40(jstTime) + Word(|raw|) + raw + t) == Ok(TOT(jstTime, ds))
  {
    var d := Word40(jstTime) + Word(|raw|) + raw + t;
    AtPrefix(Word40(jstTime), Word(|raw|) + raw + t);
    assert d == Word40(jstTime) + (Word(|raw|) + raw + t);
    Word40At(d, 0, jstTime);
    assert d[5] == Word(|raw|)[0] && d[6] == Word(|raw|)[1];
    WordAt(d, 5, |raw|);
    assert U16(d, 5) % 0x1000 == |raw|;
    AtMiddle(Word40(jstTime) + Word(|raw|), raw, t);
    AtSlice(d, 7, raw);
  }

  /**
   * An EMT written as its data event id and group id in one word, its
   * header and its descriptors reads back as that table when the
   * descriptors take at least the two bytes the reader asks for.
   */
  lemma {:induction false} EMTRoundTrip(dataEventId: nat, eventMessageGroupId: nat, h: SectionHeader,
                                        ds: seq<MMTSIDescriptor>, raw: bytes)
    requires dataEventId < 16 && eventMessageGroupId < 0x1000 && WellFormedHeader(h)
    requires DescriptorsFrom(raw, 0) == Ok(ds) && 2 <= |raw|
    ensures EMTOf(Word(dataEventId * 0x1000 + eventMessageGroupId) + EncodeSectionHeader(h) + raw)
            == Ok(EMT(dataEventId, eventMessageGroupId, h, ds))
  {
    var id := Word(dataEventId * 0x1000 + eventMessageGroupId);
    var d := id + EncodeSectionHeader(h) + raw;
    assert d[0] == id[0] && d[1] == id[1];
    WordAt(d, 0, dataEventId * 0x1000 + eventMessageGroupId);
    AtMiddle(id, EncodeSectionHeader(h), raw);
    SectionHeaderRoundTrip(d, 2, h);
    assert d[5..] == raw;
  }

  // ---------------------------------------------------------------------
  // MH-BIT

  /** A broadcaster whose id fits a byte and whose descriptors a 12-bit length counts. */
  predicate BroadcasterWire(w: (MHBroadcaster, bytes))
  {
    w.0.broadcasterId < 0x100 && DescriptorWire(w.0.broadcasterDescriptors, w.1)
  }

  /** One broadcaster on the wire: its id byte and its descriptor length, then the descriptor bytes. */
  ghost function EncodeBroadcaster(w: (MHBroadcaster, bytes)): (r: bytes)
    ensures |r| == 3 + |w.1|
  {
    [(w.0.broadcasterId % 0x100) as byte] + Word(|w.1|) + w.1
  }

  /** The fields of an encoded broadcaster found at p. */
  lemma {:induction false} BroadcasterFound(b: bytes, p: nat, s: MHBroadcaster, raw: bytes)
    requires s.broadcasterId < 0x100 && |raw| < 0x1000
    requires At(b, p, EncodeBroadcaster((s, raw)))
    ensures p + 3 + |raw| <= |b| && b[p] == s.broadcasterId && U16(b, p + 1) == |raw| && b[p + 3..p + 3 + |raw|] == raw
  {
    var e := EncodeBroadcaster((s, raw));
    assert b[p] == e[0] && b[p + 1] == e[1] && b[p + 2] == e[2];
    WordAt(b, p + 1, |raw|);
    assert e == e[..3] + raw;
    AtSplit(b, p, e[..3], raw);
    AtSlice(b, p + 3, raw);
  }

  /** An encoded broadcaster found at p is read. */
  lemma {:induction false} BroadcasterReadBack(b: bytes, p: nat, w: (MHBroadcaster, bytes))
    requires BroadcasterWire(w) && At(b, p, EncodeBroadcaster(w))
    ensures BroadcasterAt(b, p) == Read(w.0, p + 3 + |w.1|)
  {
    var s, raw := w.0, w.1;
    BroadcasterFound(b, p, s, raw);
    assert U16(b, p + 1) % 0x1000 == |raw|;
    assert DescriptorsIn(b, p + 3, |raw|) == Ok(s.broadcasterDescriptors);
  }

  /** Every encoded broadcaster of ws is read wherever it is found. */
  lemma {:induction false} BroadcastersRead(b: bytes, ws: seq<(MHBroadcaster, bytes)>)
    requires forall w :: w in ws ==> BroadcasterWire(w)
    ensures Reads(b, BroadcasterAt, EncodeBroadcaster, First, ws)
  {
    forall w, p: nat | w in ws && At(b, p, EncodeBroadcaster(w))
      ensures BroadcasterAt(b, p) == Read(First(w), p + |EncodeBroadcaster(w)|)
    {
      BroadcasterReadBack(b, p, w);
    }
  }

  /** A broadcaster read at p is kept, and the loop goes on after it. */
  lemma {:induction false} BroadcasterWindow(b: bytes, p: nat, x: MHBroadcaster, next: nat)
    requires BroadcasterAt(b, p) == Read(x, next)
    ensures BroadcastersFrom(b, p) == Chain([x], BroadcastersFrom(b, next))
  {
  }

  /** The broadcaster loop ends, with nothing more, where fewer bytes than a broadcaster head are left. */
  lemma {:induction false} BroadcastersEnd(b: bytes, o: nat)
    requires |b| < o + 3
    ensures BroadcastersFrom(b, o) == Ok([])
  {
  }

  /** Wherever the broadcaster step reads an entry, the loop keeps it and goes on after it. */
  lemma {:induction false} BroadcastersUnfold(b: bytes)
    ensures Unfolds(b, BroadcastersFrom, BroadcasterAt)
  {
    forall p: nat, x, next: nat | BroadcasterAt(b, p) == Read(x, next)
      ensures BroadcastersFrom(b, p) == Chain([x], BroadcastersFrom(b, next))
    {
      BroadcasterWindow(b, p, x, next);
    }
  }

  /** The loop over a run of broadcasters its step reads. */
  lemma {:induction false} BroadcastersWalk(b: bytes, o: nat, ws: seq<(MHBroadcaster, bytes)>)
    requires Reads(b, BroadcasterAt, EncodeBroadcaster, First, ws) && At(b, o, Laid(EncodeBroadcaster, ws))
    ensures BroadcastersFrom(b, o) == Chain(Values(First, ws), BroadcastersFrom(b, o + |Laid(EncodeBroadcaster, ws)|))
  {
    BroadcastersUnfold(b);
    LaidWalk(b, BroadcastersFrom, BroadcasterAt, EncodeBroadcaster, First, ws, o);
  }

  /** Wherever fewer bytes than a broadcaster head are left, the loop ends. */
  lemma {:induction false} BroadcastersEnds(b: bytes)
    ensures Ends(b, BroadcastersFrom, 3)
  {
    forall p: nat | |b| < p + 3
      ensures BroadcastersFrom(b, p) == Ok([])
    {
      BroadcastersEnd(b, p);
    }
  }

  /** The loop over a run of broadcasters its step reads, followed by too few bytes for another. */
  lemma {:induction false} BroadcastersWalkOut(b: bytes, o: nat, ws: seq<(MHBroadcaster, bytes)>)
    requires Reads(b, BroadcasterAt, EncodeBroadcaster, First, ws) && At(b, o, Laid(EncodeBroadcaster, ws))
    requires |b| < o + |Laid(EncodeBroadcaster, ws)| + 3
    ensures BroadcastersFrom(b, o) == Ok(Values(First, ws))
  {
    BroadcastersUnfold(b);
    BroadcastersEnds(b);
    LaidWhole(b, BroadcastersFrom, BroadcasterAt, EncodeBroadcaster, First, ws, o, 3);
  }

  /** The broadcaster loop reads a run of encoded broadcasters, then goes on after them. */
  lemma {:induction false} BroadcastersRoundTrip(b: bytes, o: nat, ws: seq<(MHBroadcaster, bytes)>)
    requires forall w :: w in ws ==> BroadcasterWire(w)
    requires At(b, o, Laid(EncodeBroadcaster, ws))
    ensures BroadcastersFrom(b, o) == Chain(Values(First, ws), BroadcastersFrom(b, o + |Laid(EncodeBroadcaster, ws)|))
  {
    BroadcastersRead(b, ws);
    BroadcastersWalk(b, o, ws);
  }

  /** A run of encoded broadcasters followed by fewer than 3 bytes is read as exactly those broadcasters. */
  lemma {:induction false} BroadcastersLaidOut(b: bytes, o: nat, ws: seq<(MHBroadcaster, bytes)>)
    requires forall w :: w in ws ==> BroadcasterWire(w)
    requires At(b, o, Laid(EncodeBroadcaster, ws)) && |b| < o + |Laid(EncodeBroadcaster, ws)| + 3
    ensures BroadcastersFrom(b, o) == Ok(Values(First, ws))
  {
    BroadcastersRead(b, ws);
    BroadcastersWalkOut(b, o, ws);
  }

  /** A BIT's 7 fixed bytes: original network id, header, and the view propriety bit with the first descriptor length. */
  function BITHead(originalNetworkId: nat, h: SectionHeader, broadcastViewPropriety: bool, descriptorsLength: nat): (r: bytes)
    ensures |r| == 7
  {
    Word(originalNetworkId) + EncodeSectionHeader(h) + Word(Bit(broadcastViewPropriety) * 0x1000 + descriptorsLength)
  }

  /** The fields of a BIT laid out from its parts. */
  lemma {:induction false} BITFound(originalNetworkId: nat, h: SectionHeader, broadcastViewPropriety: bool, raw: bytes,
                                    loop: bytes, t: bytes)
    requires originalNetworkId < 0x1_0000 && WellFormedHeader(h) && |raw| < 0x1000
    ensures var d := BITHead(originalNetworkId, h, broadcastViewPropriety, |raw|) + raw + loop + t;
      7 + |raw| <= |d| && U16(d, 0) == originalNetworkId && SectionHeaderAt(d, 2) == h
      && U16(d, 5) % 0x1000 == |raw| && (U16(d, 5) / 0x1000 % 2 == 1 <==> broadcastViewPropriety)
      && d[7..7 + |raw|] == raw && At(d, 7 + |raw|, loop)
  {
    var head := BITHead(originalNetworkId, h, broadcastViewPropriety, |raw|);
    var d := head + raw + loop + t;
    assert d == head + (raw + loop + t);
    AtPrefix(head, raw + loop + t);
    BITHeadFound(d, originalNetworkId, h, broadcastViewPropriety, |raw|);
    assert d[7..7 + |raw|] == raw;
    AtMiddle(head + raw, loop, t);
  }

  /** The fixed fields of a written BIT head read back. */
  lemma {:induction false} BITHeadFound(d: bytes, originalNetworkId: nat, h: SectionHeader, broadcastViewPropriety: bool, n: nat)
    requires originalNetworkId < 0x1_0000 && WellFormedHeader(h) && n < 0x1000
    requires At(d, 0, BITHead(originalNetworkId, h, broadcastViewPropriety, n))
    ensures 7 <= |d| && U16(d, 0) == originalNetworkId && SectionHeaderAt(d, 2) == h
    ensures U16(d, 5) % 0x1000 == n && (U16(d, 5) / 0x1000 % 2 == 1 <==> broadcastViewPropriety)
  {
    var e := EncodeSectionHeader(h);
    var f := Bit(broadcastViewPropriety) * 0x1000 + n;
    AtSplit(d, 0, Word(originalNetworkId) + e, Word(f));
    AtSplit(d, 0, Word(originalNetworkId), e);
    WordFound(d, 0, originalNetworkId);
    WordFound(d, 5, f);
    SectionHeaderRoundTrip(d, 2, h);
  }

  /** A BIT body whose fields read as given, whose descriptors and broadcasters decode, is that BIT. */
  lemma {:induction false} BITOfParts(d: bytes, originalNetworkId: nat, h: SectionHeader, broadcastViewPropriety: bool, n: nat,
                                      first: seq<MMTSIDescriptor>, broadcasters: seq<MHBroadcaster>)
    requires 7 + n <= |d| && U16(d, 0) == originalNetworkId && SectionHeaderAt(d, 2) == h
    requires U16(d, 5) % 0x1000 == n && (U16(d, 5) / 0x1000 % 2 == 1 <==> broadcastViewPropriety)
    requires DescriptorsFrom(d[7..7 + n], 0) == Ok(first) && BroadcastersFrom(d, 7 + n) == Ok(broadcasters)
    ensures BITOf(d) == Ok(BIT(originalNetworkId, h, broadcastViewPropriety, first, broadcasters))
  {
  }

  /**
   * A BIT written as its fixed fields, its first descriptors and its
   * broadcasters reads back as that table when fewer than 3 bytes follow.
   */
  lemma {:induction false} BITRoundTrip(originalNetworkId: nat, h: SectionHeader, broadcastViewPropriety: bool,
                                        first: seq<MMTSIDescriptor>, raw: bytes, ws: seq<(MHBroadcaster, bytes)>, t: bytes)
    requires originalNetworkId < 0x1_0000 && WellFormedHeader(h) && DescriptorWire(first, raw)
    requires forall w :: w in ws ==> BroadcasterWire(w)
    requires |t| < 3
    ensures BITOf(BITHead(originalNetworkId, h, broadcastViewPropriety, |raw|) + raw + Laid(EncodeBroadcaster, ws) + t)
            == Ok(BIT(originalNetworkId, h, broadcastViewPropriety, first, Values(First, ws)))
  {
    var loop := Laid(EncodeBroadcaster, ws);
    var d := BITHead(originalNetworkId, h, broadcastViewPropriety, |raw|) + raw + loop + t;
    var n := |raw|;
    BITFound(originalNetworkId, h, broadcastViewPropriety, raw, loop, t);
    BroadcastersLaidOut(d, 7 + n, ws);
    BITOfParts(d, originalNetworkId, h, broadcastViewPropriety, n, first, Values(First, ws));
  }

  // ---------------------------------------------------------------------
  // MH-AIT

  /** An application whose ids and control code fit, and whose descriptors a 12-bit length counts. */
  predicate ApplicationWire(w: (MHApplication, bytes))
  {
    w.0.organizationId < 0x1_0000 && w.0.applicationId < 0x1_0000_0000 && w.0.applicationControlCode < 0x100
    && DescriptorWire(w.0.applicationDescriptors, w.1)
  }

  /** One application on the wire: organization id, application id, control code and descriptor length, then the descriptors. */
  ghost function EncodeApplication(w: (MHApplication, bytes)): (r: bytes)
    ensures |r| == 9 + |w.1|
  {
    Word(w.0.organizationId) + Word32(w.0.applicationId) + [(w.0.applicationControlCode % 0x100) as byte]
    + Word(|w.1|) + w.1
  }

  /** The fields of an encoded application found at p. */
  lemma {:induction false} ApplicationFound(b: bytes, p: nat, s: MHApplication, raw: bytes)
    requires s.organizationId < 0x1_0000 && s.applicationId < 0x1_0000_0000 && s.applicationControlCode < 0x100
    requires |raw| < 0x1000 && At(b, p, EncodeApplication((s, raw)))
    ensures p + 9 + |raw| <= |b| && U16(b, p) == s.organizationId && U32(b, p + 2) == s.applicationId
    ensures b[p + 6] == s.applicationControlCode && U16(b, p + 7) == |raw| && b[p + 9..p + 9 + |raw|] == raw
  {
    var code: bytes := [(s.applicationControlCode % 0x100) as byte];
    var ids := Word(s.organizationId) + Word32(s.applicationId);
    AtSplit(b, p, ids + code + Word(|raw|), raw);
    AtSplit(b, p, ids + code, Word(|raw|));
    AtSplit(b, p, ids, code);
    AtSplit(b, p, Word(s.organizationId), Word32(s.applicationId));
    WordFound(b, p, s.organizationId);
    Word32At(b, p + 2, s.applicationId);
    assert b[p + 6] == code[0];
    WordFound(b, p + 7, |raw|);
    AtSlice(b, p + 9, raw);
  }

  /** An encoded application found at p is read. */
  lemma {:induction false} ApplicationReadBack(b: bytes, p: nat, w: (MHApplication, bytes))
    requires ApplicationWire(w) && At(b, p, EncodeApplication(w))
    ensures ApplicationAt(b, p) == Read(w.0, p + 9 + |w.1|)
  {
    var s, raw := w.0, w.1;
    ApplicationFound(b, p, s, raw);
    assert U16(b, p + 7) % 0x1000 == |raw|;
    assert ApplicationHeadAt(b, p) == s.(applicationDescriptors := []);
    assert DescriptorsIn(b, p + 9, |raw|) == Ok(s.applicationDescriptors);
  }

  /** Every encoded application of ws is read wherever it is found. */
  lemma {:induction false} ApplicationsRead(b: bytes, ws: seq<(MHApplication, bytes)>)
    requires forall w :: w in ws ==> ApplicationWire(w)
    ensures Reads(b, ApplicationAt, EncodeApplication, First, ws)
  {
    forall w, p: nat | w in ws && At(b, p, EncodeApplication(w))
      ensures ApplicationAt(b, p) == Read(First(w), p + |EncodeApplication(w)|)
    {
      ApplicationReadBack(b, p, w);
    }
  }

  /** A application read at p is kept, and the loop goes on after it. */
  lemma {:induction false} ApplicationWindow(b: bytes, p: nat, x: MHApplication, next: nat)
    requires ApplicationAt(b, p) == Read(x, next)
    ensures ApplicationsFrom(b, p) == Chain([x], ApplicationsFrom(b, next))
  {
  }

  /** The application loop ends, with nothing more, where fewer bytes than a application head are left. */
  lemma {:induction false} ApplicationsEnd(b: bytes, o: nat)
    requires |b| < o + 9
    ensures ApplicationsFrom(b, o) == Ok([])
  {
  }

  /** Wherever the application step reads an entry, the loop keeps it and goes on after it. */
  lemma {:induction false} ApplicationsUnfold(b: bytes)
    ensures Unfolds(b, ApplicationsFrom, ApplicationAt)
  {
    forall p: nat, x, next: nat | ApplicationAt(b, p) == Read(x, next)
      ensures ApplicationsFrom(b, p) == Chain([x], ApplicationsFrom(b, next))
    {
      ApplicationWindow(b, p, x, next);
    }
  }

  /** The loop over a run of applications its step reads. */
  lemma {:induction false} ApplicationsWalk(b: bytes, o: nat, ws: seq<(MHApplication, bytes)>)
    requires Reads(b, ApplicationAt, EncodeApplication, First, ws) && At(b, o, Laid(EncodeApplication, ws))
    ensures ApplicationsFrom(b, o) == Chain(Values(First, ws), ApplicationsFrom(b, o + |Laid(EncodeApplication, ws)|))
  {
    ApplicationsUnfold(b);
    LaidWalk(b, ApplicationsFrom, ApplicationAt, EncodeApplication, First, ws, o);
  }

  /** Wherever fewer bytes than a application head are left, the loop ends. */
  lemma {:induction false} ApplicationsEnds(b: bytes)
    ensures Ends(b, ApplicationsFrom, 9)
  {
    forall p: nat | |b| < p + 9
      ensures ApplicationsFrom(b, p) == Ok([])
    {
      ApplicationsEnd(b, p);
    }
  }

  /** The loop over a run of applications its step reads, followed by too few bytes for another. */
  lemma {:induction false} ApplicationsWalkOut(b: bytes, o: nat, ws: seq<(MHApplication, bytes)>)
    requires Reads(b, ApplicationAt, EncodeApplication, First, ws) && At(b, o, Laid(EncodeApplication, ws))
    requires |b| < o + |Laid(EncodeApplication, ws)| + 9
    ensures ApplicationsFrom(b, o) == Ok(Values(First, ws))
  {
    ApplicationsUnfold(b);
    ApplicationsEnds(b);
    LaidWhole(b, ApplicationsFrom, ApplicationAt, EncodeApplication, First, ws, o, 9);
  }

  /** The application loop reads a run of encoded applications, then goes on after them. */
  lemma {:induction false} ApplicationsRoundTrip(b: bytes, o: nat, ws: seq<(MHApplication, bytes)>)
    requires forall w :: w in ws ==> ApplicationWire(w)
    requires At(b, o, Laid(EncodeApplication, ws))
    ensures ApplicationsFrom(b, o) == Chain(Values(First, ws), ApplicationsFrom(b, o + |Laid(EncodeApplication, ws)|))
  {
    ApplicationsRead(b, ws);
    ApplicationsWalk(b, o, ws);
  }

  /** A run of encoded applications followed by fewer than 9 bytes is read as exactly those applications. */
  lemma {:induction false} ApplicationsLaidOut(b: bytes, o: nat, ws: seq<(MHApplication, bytes)>)
    requires forall w :: w in ws ==> ApplicationWire(w)
    requires At(b, o, Laid(EncodeApplication, ws)) && |b| < o + |Laid(EncodeApplication, ws)| + 9
    ensures ApplicationsFrom(b, o) == Ok(Values(First, ws))
  {
    ApplicationsRead(b, ws);
    ApplicationsWalkOut(b, o, ws);
  }

  /** An application loop on its own, cut out by its length, reads back as its applications. */
  lemma {:induction false} ApplicationLoopRoundTrip(ws: seq<(MHApplication, bytes)>)
    requires forall w :: w in ws ==> ApplicationWire(w)
    ensures ApplicationsFrom(Laid(EncodeApplication, ws), 0) == Ok(Values(First, ws))
  {
    var l := Laid(EncodeApplication, ws);
    AtPrefix(l, []);
    assert l + [] == l;
    ApplicationsLaidOut(l, 0, ws);
  }

  /** An AIT's 7 fixed bytes: application type, header and common descriptor length. */
  function AITHead(applicationType: nat, h: SectionHeader, descriptorsLength: nat): (r: bytes)
    ensures |r| == 7
  {
    Word(applicationType) + EncodeSectionHeader(h) + Word(descriptorsLength)
  }

  /** The fields of an AIT laid out from its parts. */
  lemma {:induction false} AITFound(applicationType: nat, h: SectionHeader, raw: bytes, loop: bytes, t: bytes)
    requires applicationType < 0x1_0000 && WellFormedHeader(h) && |raw| < 0x1000 && |loop| < 0x1000
    ensures var d := AITHead(applicationType, h, |raw|) + raw + Word(|loop|) + loop + t;
      9 + |raw| + |loop| <= |d| && U16(d, 0) == applicationType && SectionHeaderAt(d, 2) == h
      && U16(d, 5) == |raw| && d[7..7 + |raw|] == raw && U16(d, 7 + |raw|) == |loop|
      && Js.Slice(d, 9 + |raw|, 9 + |raw| + |loop|) == loop
  {
    var head := AITHead(applicationType, h, |raw|);
    var d := head + raw + Word(|loop|) + loop + t;
    var e := EncodeSectionHeader(h);
    var n := |raw|;
    assert d[0] == head[0] == Word(applicationType)[0] && d[1] == head[1] == Word(applicationType)[1];
    assert d[2] == head[2] == e[0] && d[3] == head[3] == e[1] && d[4] == head[4] == e[2];
    assert d[5] == head[5] == Word(n)[0] && d[6] == head[6] == Word(n)[1];
    WordAt(d, 0, applicationType);
    WordAt(d, 5, n);
    SectionHeaderRoundTrip(d, 2, h);
    assert d[7..7 + n] == raw;
    assert d[7 + n] == Word(|loop|)[0] && d[8 + n] == Word(|loop|)[1];
    WordAt(d, 7 + n, |loop|);
    assert d[9 + n..9 + n + |loop|] == loop;
  }

  /**
   * An AIT written as its fixed fields, its common descriptors and its
   * application loop with the loop length reads back as that table,
   * whatever follows the loop.
   */
  lemma {:induction false} AITRoundTrip(applicationType: nat, h: SectionHeader, common: seq<MMTSIDescriptor>, raw: bytes,
                                        ws: seq<(MHApplication, bytes)>, t: bytes)
    requires applicationType < 0x1_0000 && WellFormedHeader(h) && DescriptorWire(common, raw)
    requires forall w :: w in ws ==> ApplicationWire(w)
    requires |Laid(EncodeApplication, ws)| < 0x1000
    ensures var loop := Laid(EncodeApplication, ws);
      AITOf(AITHead(applicationType, h, |raw|) + raw + Word(|loop|) + loop + t)
      == Ok(AIT(applicationType, h, common, Values(First, ws)))
  {
    var loop := Laid(EncodeApplication, ws);
    var d := AITHead(applicationType, h, |raw|) + raw + Word(|loop|) + loop + t;
    AITFound(applicationType, h, raw, loop, t);
    ApplicationLoopRoundTrip(ws);
    assert ApplicationsIn(d, 9 + |raw|, |loop|) == Ok(Values(First, ws));
    AITOfParts(d, applicationType, h, |raw|, |loop|, common, Values(First, ws));
  }

  /** An application loop whose length word reads m and whose m bytes decode completes the table. */
  lemma {:induction false} AITLoopOf(d: bytes, q: nat, m: nat, t: M2Section, applications: seq<MHApplication>)
    requires t.AIT? && m < 0x1000 && q + 2 + m <= |d| && U16(d, q) == m
    requires ApplicationsIn(d, q + 2, m) == Ok(applications)
    ensures AITApplicationsOf(d, q, t) == Ok(t.(applications := applications))
  {
    assert U16(d, q) % 0x1000 == m;
  }

  /** An AIT body whose fields read as given, whose descriptors and application loop decode, is that AIT. */
  lemma {:induction false} AITOfParts(d: bytes, applicationType: nat, h: SectionHeader, n: nat, m: nat,
                                      common: seq<MMTSIDescriptor>, applications: seq<MHApplication>)
    requires n < 0x1000 && m < 0x1000 && 9 + n + m <= |d|
    requires U16(d, 0) == applicationType && SectionHeaderAt(d, 2) == h && U16(d, 5) == n && U16(d, 7 + n) == m
    requires DescriptorsFrom(d[7..7 + n], 0) == Ok(common) && ApplicationsIn(d, 9 + n, m) == Ok(applications)
    ensures AITOf(d) == Ok(AIT(applicationType, h, common, applications))
  {
    assert U16(d, 5) % 0x1000 == n;
    AITLoopOf(d, 7 + n, m, AIT(applicationType, h, common, []), applications);
  }
}
