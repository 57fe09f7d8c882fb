// The MMTP packet reader of src/mmtp.ts: the 12-byte header, the walk over
// the header extension list that drops scrambled packets, listener gating,
// MPU dispatch, and the per-packet-id queue that reassembles fragmented
// signalling messages before they are decoded.
module Mmtp {
  import opened Js
  import opened Decoding
  import opened Utils
  import opened EventTarget
  import opened Events
  import opened MmtSiTables
  import opened MmtSi
  import opened Mpu

  const MMTP_PAYLOAD_TYPE_MPU := 0x00
  const MMTP_PAYLOAD_TYPE_SI := 0x02

  const MMTP_FRAGMENTATION_INDICATOR_COMPLETE := 0
  const MMTP_FRAGMENTATION_INDICATOR_HEAD := 1
  const MMTP_FRAGMENTATION_INDICATOR_MIDDLE := 2
  const MMTP_FRAGMENTATION_INDICATOR_TAIL := 3

  const MMT_PID_PLT := 0x0000
  const MMT_PID_CAT := 0x0001
  const MMT_PID_EIT := 0x8000
  const MMT_PID_BIT := 0x8002
  const MMT_PID_SDTT := 0x8003
  const MMT_PID_SDT := 0x8004
  const MMT_PID_TOT := 0x8005
  const MMT_PID_CDT := 0x8006

  const MMT_MULTI_TYPE_HEADER_EXTENSION_SCRAMBLE := 0x0001
  const MMT_SCRAMBLE_CONTROL_NONE := 0

  /** `siPacketQueue`: the fragments collected so far for each packet id. */
  type Queue = map<nat, seq<bytes>>

  type Target = CustomEventTarget<EventType, EventPayload>

  // ---------------------------------------------------------------------
  // Header

  /**
   * The fixed header at o: flags, payload type, packet id, timestamp and
   * sequence number, then the packet counter when bit 5 of the flags is set.
   * `fecType` is `(flags >> 4) & 3`, so its high bit is the packet counter
   * flag itself.
   */
  function HeaderAt(b: bytes, o: nat): (r: Option<Field<MMTHeader>>)
    ensures r.Some? <==> |b| >= o + 12 && (b[o] / 0x20 % 2 == 1 ==> |b| >= o + 16)
    ensures r.Some? ==> r.value.next == o + 12 + (if r.value.value.packetCounter.Some? then 4 else 0)
    ensures r.Some? ==> r.value.value.version < 4 && r.value.value.fecType < 4 && r.value.value.payloadType < 0x40
  {
    if |b| < o + 1 + 1 + 2 + 4 + 4 then None
    else
      var flags := b[o];
      var packetCounterFlag := flags / 0x20 % 2 == 1;
      if packetCounterFlag && |b| < o + 12 + 4 then None
      else
        var header := MMTHeader(
          flags / 0x40, flags / 0x10 % 4, flags / 2 % 2 == 1, flags % 2 == 1, b[o + 1] % 0x40,
          U16(b, o + 2), U32(b, o + 4), U32(b, o + 8),
          if packetCounterFlag then Some(U32(b, o + 12)) else None);
        Some(Field(header, o + 12 + (if packetCounterFlag then 4 else 0)))
  }

  /**
   * Headers the reader can carry: field widths as on the wire, and the
   * packet counter present exactly when the high bit of `fecType` is set,
   * since both are read from bit 5.
   */
  ghost predicate WellFormedHeader(h: MMTHeader)
  {
    && h.version < 4 && h.fecType < 4 && h.payloadType < 0x40 && h.packetId < 0x1_0000
    && h.timestamp < 0x1_0000_0000 && h.packetSequenceNumber < 0x1_0000_0000
    && (h.packetCounter.Some? <==> h.fecType >= 2)
    && (h.packetCounter.Some? ==> h.packetCounter.value < 0x1_0000_0000)
  }

  ghost function FlagsByte(h: MMTHeader): (f: byte)
    requires WellFormedHeader(h)
  {
    h.version * 0x40 + h.fecType * 0x10 + (if h.extensionFlag then 2 else 0) + (if h.rapFlag then 1 else 0)
  }

  /** The header bytes, with the reserved bits clear. */
  ghost function EncodeHeader(h: MMTHeader): (r: bytes)
    requires WellFormedHeader(h)
  {
    [FlagsByte(h), h.payloadType as byte] + Be16(h.packetId)
    + Be32(h.timestamp) + Be32(h.packetSequenceNumber)
    + (if h.packetCounter.Some? then Be32(h.packetCounter.value) else [])
  }

  /** Every header the reader can carry reads back from its bytes, whatever follows. */
  lemma {:induction false} HeaderRoundTrip(h: MMTHeader, rest: bytes)
    requires WellFormedHeader(h)
    ensures HeaderAt(EncodeHeader(h) + rest, 0) == Some(Field(h, |EncodeHeader(h)|))
  {
    AtPrefix(EncodeHeader(h), rest);
    HeaderWindow(EncodeHeader(h) + rest, h);
  }

  lemma {:induction false} HeaderWindow(b: bytes, h: MMTHeader)
    requires WellFormedHeader(h) && At(b, 0, EncodeHeader(h))
    ensures HeaderAt(b, 0) == Some(Field(h, |EncodeHeader(h)|))
  {
    var head: bytes := [FlagsByte(h), h.payloadType as byte];
    var counter := if h.packetCounter.Some? then Be32(h.packetCounter.value) else [];
    var fixed := head + Be16(h.packetId) + Be32(h.timestamp) + Be32(h.packetSequenceNumber);
    AtSplit(b, 0, fixed, counter);
    AtSplit(b, 0, head + Be16(h.packetId) + Be32(h.timestamp), Be32(h.packetSequenceNumber));
    AtSplit(b, 0, head + Be16(h.packetId), Be32(h.timestamp));
    AtSplit(b, 0, head, Be16(h.packetId));
    assert b[0] == head[0] && b[1] == head[1];
    AtU16(b, 2, Be16(h.packetId));
    AtU32(b, 4, Be32(h.timestamp));
    AtU32(b, 8, Be32(h.packetSequenceNumber));
    if h.packetCounter.Some? {
      AtU32(b, 12, counter);
    }
    FlagsOf(h);
  }

  lemma {:induction false} FlagsOf(h: MMTHeader)
    requires WellFormedHeader(h)
    ensures FlagsByte(h) / 0x40 == h.version && FlagsByte(h) / 0x10 % 4 == h.fecType
    ensures (FlagsByte(h) / 0x20 % 2 == 1 <==> h.packetCounter.Some?)
    ensures (FlagsByte(h) / 2 % 2 == 1 <==> h.extensionFlag) && (FlagsByte(h) % 2 == 1 <==> h.rapFlag)
  {
    var e := if h.extensionFlag then 1 else 0;
    var r := if h.rapFlag then 1 else 0;
    var low := e * 2 + r;
    var f := FlagsByte(h);
    assert f == h.version * 0x40 + h.fecType * 0x10 + low;
    DivExact(h.version, h.fecType * 0x10 + low, 0x40);
    DivExact(h.version * 4 + h.fecType, low, 0x10);
    DivExact(h.version, h.fecType, 4);
    assert h.fecType * 0x10 == h.fecType / 2 * 0x20 + h.fecType % 2 * 0x10;
    DivExact(h.version * 2 + h.fecType / 2, h.fecType % 2 * 0x10 + low, 0x20);
    DivExact(h.version, h.fecType / 2, 2);
    DivExact(h.version * 0x20 + h.fecType * 8 + e, r, 2);
    DivExact(h.version * 0x10 + h.fecType * 4, e, 2);
  }

  /** A packet whose counter flag is set always reports an FEC type of 2 or 3. */
  lemma {:induction false} CounterFlagInFecType(b: bytes, o: nat)
    requires HeaderAt(b, o).Some?
    ensures HeaderAt(b, o).value.value.packetCounter.Some? <==> HeaderAt(b, o).value.value.fecType >= 2
  {
  }

  // ---------------------------------------------------------------------
  // Header extensions

  /** One entry of the header extension list as the walk sees it. */
  datatype HeaderExtension = HeaderExtension(hdrExtType: nat, body: bytes)

  /** A scrambling entry whose control bits say the payload is scrambled. */
  predicate ScramblingEntry(e: HeaderExtension)
  {
    e.hdrExtType == MMT_MULTI_TYPE_HEADER_EXTENSION_SCRAMBLE && |e.body| >= 1 && e.body[0] / 8 % 4 != MMT_SCRAMBLE_CONTROL_NONE
  }

  /**
   * The entries the walk visits from i: a 16-bit header (end flag and type)
   * and a 16-bit length per entry; an entry with the end flag, or whose body
   * overruns, ends the list and is not part of it.
   */
  function HeaderExtensionsFrom(ext: bytes, i: nat): (r: seq<HeaderExtension>)
    decreases |ext| - i
  {
    if i + 4 > |ext| then []
    else
      var hdr := U16(ext, i);
      var length := U16(ext, i + 2);
      if hdr >= 0x8000 || i + 4 + length > |ext| then []
      else [HeaderExtension(hdr % 0x8000, ext[i + 4..i + 4 + length])] + HeaderExtensionsFrom(ext, i + 4 + length)
  }

  /** The walk of `push` from i: true when it meets a scrambling entry and drops the packet. */
  function ScrambledFrom(ext: bytes, i: nat): bool
    decreases |ext| - i
  {
    if i + 4 > |ext| then false
    else
      var hdr := U16(ext, i);
      if hdr >= 0x8000 then false
      else
        var length := U16(ext, i + 2);
        if i + 4 + length > |ext| then false
        else if hdr % 0x8000 == MMT_MULTI_TYPE_HEADER_EXTENSION_SCRAMBLE && length >= 1
                && ext[i + 4] / 8 % 4 != MMT_SCRAMBLE_CONTROL_NONE then true
        else ScrambledFrom(ext, i + 4 + length)
  }

  /** The walk drops the packet exactly when some entry it can reach says the payload is scrambled. */
  lemma {:induction false} ScrambledIff(ext: bytes, i: nat)
    ensures ScrambledFrom(ext, i) <==> exists k :: 0 <= k < |HeaderExtensionsFrom(ext, i)| && ScramblingEntry(HeaderExtensionsFrom(ext, i)[k])
    decreases |ext| - i
  {
    if i + 4 <= |ext| && U16(ext, i) < 0x8000 && i + 4 + U16(ext, i + 2) <= |ext| {
      var length := U16(ext, i + 2);
      var e := HeaderExtension(U16(ext, i) % 0x8000, ext[i + 4..i + 4 + length]);
      var tail := HeaderExtensionsFrom(ext, i + 4 + length);
      var xs := HeaderExtensionsFrom(ext, i);
      assert xs == [e] + tail;
      ScrambledIff(ext, i + 4 + length);
      if length >= 1 {
        assert e.body[0] == ext[i + 4];
      }
      assert |e.body| == length && e.hdrExtType == U16(ext, i) % 0x8000;
      if ScrambledFrom(ext, i) {
        if ScramblingEntry(e) {
          assert xs[0] == e;
        } else {
          var k :| 0 <= k < |tail| && ScramblingEntry(tail[k]);
          assert xs[k + 1] == tail[k];
          assert 0 <= k + 1 < |xs| && ScramblingEntry(xs[k + 1]);
        }
      } else {
        forall k | 0 <= k < |xs|
          ensures !ScramblingEntry(xs[k])
        {
          if k > 0 {
            assert xs[k] == tail[k - 1];
          }
        }
      }
    }
  }

  /** The extension walk loop of `push` over the extension body. */
  method WalkHeaderExtensions(ext: bytes) returns (scrambled: bool)
    ensures scrambled == ScrambledFrom(ext, 0)
  {
    var i: nat := 0;
    while i + 4 <= |ext|
      invariant ScrambledFrom(ext, i) == ScrambledFrom(ext, 0)
      decreases |ext| - i
    {
      var hdr := (ext[i] as int) * 0x100 + ext[i + 1];
      if hdr >= 0x8000 {
        return false;
      }
      var hdrExtType := hdr % 0x8000;
      var hdrExtLength := (ext[i + 2] as int) * 0x100 + ext[i + 3];
      i := i + 4;
      if i + hdrExtLength > |ext| {
        return false;
      }
      if hdrExtType == MMT_MULTI_TYPE_HEADER_EXTENSION_SCRAMBLE && hdrExtLength >= 1 {
        var control := ext[i] / 8 % 4;
        if control != MMT_SCRAMBLE_CONTROL_NONE {
          return true;
        }
      }
      i := i + hdrExtLength;
    }
    return false;
  }

  /**
   * The extension header at p when the extension flag is set: type and
   * length, then the body, which is walked only for type 0.  None when the
   * packet is dropped: the header or body does not fit, or the walk finds a
   * scrambled payload.  Otherwise the offset after the extension.
   */
  function ExtensionAt(b: bytes, p: int, extensionFlag: bool): (r: Option<int>)
    requires p >= 0
    ensures !extensionFlag ==> r == Some(p)
    ensures extensionFlag && r.Some? ==> |b| >= p + 4 && r.value == p + 4 + U16(b, p + 2) <= |b|
  {
    if !extensionFlag then Some(p)
    else if |b| < p + 4 then None
    else
      var extensionType := U16(b, p);
      var extensionLength := U16(b, p + 2);
      if |b| < p + 4 + extensionLength then None
      else if extensionType == 0 && ScrambledFrom(Js.Slice(b, p + 4, p + 4 + extensionLength), 0) then None
      else Some(p + 4 + extensionLength)
  }

  // ---------------------------------------------------------------------
  // Dispatch

  /** The event types of the section tables that come on a fixed packet id. */
  predicate SectionEventType(t: EventType)
  {
    t == Sdt || t == Cdt || t == Bit || t == Eit || t == Tot
  }

  /** The packet ids whose signalling is dropped unread when their event has no listener. */
  function GatedType(packetId: nat): (r: Option<EventType>)
    ensures r.Some? <==> packetId == MMT_PID_SDT || packetId == MMT_PID_CDT || packetId == MMT_PID_BIT
                         || packetId == MMT_PID_EIT || packetId == MMT_PID_TOT
    ensures r.Some? ==> SectionEventType(r.value)
  {
    if packetId == MMT_PID_SDT then Some(Sdt)
    else if packetId == MMT_PID_CDT then Some(Cdt)
    else if packetId == MMT_PID_BIT then Some(Bit)
    else if packetId == MMT_PID_EIT then Some(Eit)
    else if packetId == MMT_PID_TOT then Some(Tot)
    else None
  }

  /** `onSI`'s choice of event for a decoded message on a packet id. */
  function SIEventOf(packetId: nat, message: Decoded<Message>): (r: Option<Event>)
    ensures r.Some? ==> message.Ok? && r.value.payload.MMTSIEvent? && r.value.payload.packetId == packetId
    ensures r.Some? && r.value.eventType == Plt ==>
              packetId == MMT_PID_PLT && message.value.PAMessage? && |message.value.tables| > 0
              && message.value.tables[0].PLT? && r.value.payload.table == PackageTable(message.value.tables[0])
    ensures r.Some? && r.value.eventType == Mpt ==>
              message.value.PAMessage? && |message.value.tables| > 0
              && message.value.tables[0].MPT? && r.value.payload.table == PackageTable(message.value.tables[0])
    ensures r.Some? && r.value.eventType != Plt && r.value.eventType != Mpt ==>
              GatedType(packetId) == Some(r.value.eventType)
    ensures r.Some? ==> r.value.eventType != Nit && r.value.eventType != MpuEvent
  {
    match message
    case Ok(PAMessage(_, tables)) =>
      if packetId == MMT_PID_PLT && |tables| > 0 && tables[0].PLT? then
        Some(Event(Plt, MMTSIEvent(packetId, PackageTable(tables[0]))))
      else if |tables| > 0 && tables[0].MPT? then
        Some(Event(Mpt, MMTSIEvent(packetId, PackageTable(tables[0]))))
      else None
    case Ok(M2SectionMessage(_, table)) =>
      if packetId == MMT_PID_SDT && table.SDT? then Some(Event(Sdt, MMTSIEvent(packetId, Section(table))))
      else if packetId == MMT_PID_CDT && table.CDT? then Some(Event(Cdt, MMTSIEvent(packetId, Section(table))))
      else if packetId == MMT_PID_BIT && table.BIT? then Some(Event(Bit, MMTSIEvent(packetId, Section(table))))
      else if packetId == MMT_PID_EIT && table.EIT? then Some(Event(Eit, MMTSIEvent(packetId, Section(table))))
      else None
    case Ok(M2ShortSectionMessage(_, table)) =>
      if packetId == MMT_PID_TOT then Some(Event(Tot, MMTSIEvent(packetId, TimeOffset(table))))
      else None
    case _ => None
  }

  /**
   * The section events come only from their fixed packet ids and carry the
   * table kind the id stands for, so the listener gate of `push` only ever
   * discards events that would have had no listener.
   */
  lemma {:induction false} SectionEventsOnFixedIds(packetId: nat, message: Decoded<Message>)
    requires SIEventOf(packetId, message).Some?
    ensures var e := SIEventOf(packetId, message).value;
            && (e.eventType == Sdt ==> packetId == MMT_PID_SDT && message.value.M2SectionMessage? && message.value.table.SDT?)
            && (e.eventType == Cdt ==> packetId == MMT_PID_CDT && message.value.M2SectionMessage? && message.value.table.CDT?)
            && (e.eventType == Bit ==> packetId == MMT_PID_BIT && message.value.M2SectionMessage? && message.value.table.BIT?)
            && (e.eventType == Eit ==> packetId == MMT_PID_EIT && message.value.M2SectionMessage? && message.value.table.EIT?)
            && (e.eventType == Tot ==> packetId == MMT_PID_TOT && message.value.M2ShortSectionMessage?)
  {
  }

  /** The event types that have at least one listener. */
  function Listened(events: map<EventType, seq<Listener>>): (r: set<EventType>)
    ensures forall t :: t in r <==> |ListenersOf(events, t)| > 0
  {
    var r := set t | t in events && |events[t]| > 0;
    assert forall t :: t in r <==> |ListenersOf(events, t)| > 0 by {
      forall t
        ensures t in r <==> |ListenersOf(events, t)| > 0
      {
        if t in events {
          assert ListenersOf(events, t) == events[t];
        }
      }
    }
    r
  }

  /** The listener calls one dispatch makes, or none when nothing is dispatched. */
  function Emitted(events: map<EventType, seq<Listener>>, e: Option<Event>): (r: seq<Invocation<EventType, EventPayload>>)
    ensures e.None? ==> r == []
    ensures e.Some? ==> |r| == |ListenersOf(events, e.value.eventType)|
  {
    if e.None? then [] else Calls(ListenersOf(events, e.value.eventType), e.value.eventType, e.value.payload)
  }

  // ---------------------------------------------------------------------
  // Fragment queue

  /** The queue after one fragment, and the fragments to decode now, if any. */
  datatype Fragmented = Fragmented(queue: Queue, delivered: Option<seq<bytes>>)

  /**
   * COMPLETE decodes the payload alone and forgets the id; HEAD starts the
   * id's list afresh; MIDDLE and TAIL append to an existing list and are
   * dropped otherwise, and TAIL decodes the list without removing it.
   */
  function FragmentStep(queue: Queue, packetId: nat, fi: nat, payload: bytes): (r: Fragmented)
    ensures forall q :: q != packetId ==> (q in r.queue <==> q in queue)
    ensures forall q :: q != packetId && q in queue ==> r.queue[q] == queue[q]
    ensures fi == MMTP_FRAGMENTATION_INDICATOR_COMPLETE ==> packetId !in r.queue && r.delivered == Some([payload])
    ensures fi == MMTP_FRAGMENTATION_INDICATOR_HEAD ==> packetId in r.queue && r.queue[packetId] == [payload] && r.delivered.None?
    ensures fi > MMTP_FRAGMENTATION_INDICATOR_HEAD && packetId !in queue ==> r == Fragmented(queue, None)
    ensures fi > MMTP_FRAGMENTATION_INDICATOR_HEAD && packetId in queue ==>
              packetId in r.queue && r.queue[packetId] == queue[packetId] + [payload]
              && r.delivered == (if fi == MMTP_FRAGMENTATION_INDICATOR_TAIL then Some(r.queue[packetId]) else None)
  {
    if fi == MMTP_FRAGMENTATION_INDICATOR_COMPLETE then Fragmented(queue - {packetId}, Some([payload]))
    else if fi == MMTP_FRAGMENTATION_INDICATOR_HEAD then Fragmented(queue[packetId := [payload]], None)
    else if packetId in queue then
      var entry := queue[packetId] + [payload];
      Fragmented(queue[packetId := entry], if fi == MMTP_FRAGMENTATION_INDICATOR_TAIL then Some(entry) else None)
    else Fragmented(queue, None)
  }

  /** The queue after a run of MIDDLE fragments on one id. */
  function Middles(queue: Queue, packetId: nat, payloads: seq<bytes>): Queue
    decreases |payloads|
  {
    if payloads == [] then queue
    else Middles(FragmentStep(queue, packetId, MMTP_FRAGMENTATION_INDICATOR_MIDDLE, payloads[0]).queue, packetId, payloads[1..])
  }

  lemma {:induction false} MiddlesAppend(queue: Queue, packetId: nat, payloads: seq<bytes>)
    requires packetId in queue
    ensures packetId in Middles(queue, packetId, payloads)
    ensures Middles(queue, packetId, payloads)[packetId] == queue[packetId] + payloads
    decreases |payloads|
  {
    if payloads != [] {
      var next := FragmentStep(queue, packetId, MMTP_FRAGMENTATION_INDICATOR_MIDDLE, payloads[0]).queue;
      MiddlesAppend(next, packetId, payloads[1..]);
      assert queue[packetId] + [payloads[0]] + payloads[1..] == queue[packetId] + payloads;
    }
  }

  /**
   * A HEAD, any number of MIDDLEs and a TAIL on one id deliver all their
   * payloads in order, whatever the queue held before.
   */
  lemma {:induction false} Reassembly(queue: Queue, packetId: nat, head: bytes, middles: seq<bytes>, tail: bytes)
    ensures var started := FragmentStep(queue, packetId, MMTP_FRAGMENTATION_INDICATOR_HEAD, head).queue;
            FragmentStep(Middles(started, packetId, middles), packetId, MMTP_FRAGMENTATION_INDICATOR_TAIL, tail).delivered
            == Some([head] + middles + [tail])
  {
    var started := FragmentStep(queue, packetId, MMTP_FRAGMENTATION_INDICATOR_HEAD, head).queue;
    MiddlesAppend(started, packetId, middles);
  }

  /** MIDDLE and TAIL fragments before any HEAD change nothing and deliver nothing. */
  lemma {:induction false} OrphansIgnored(queue: Queue, packetId: nat, payloads: seq<bytes>)
    requires packetId !in queue
    ensures Middles(queue, packetId, payloads) == queue
    decreases |payloads|
  {
    if payloads != [] {
      OrphansIgnored(queue, packetId, payloads[1..]);
    }
  }

  // ---------------------------------------------------------------------
  // Effect of one packet

  /** What a pushed packet does: the new queue, the event dispatched, and whether decoding threw. */
  datatype Effect = Effect(queue: Queue, event: Option<Event>, thrown: bool)

  /** The MPU branch from p: dispatched only with an "mpu" listener. */
  function MPUEffect(b: bytes, p: int, header: MMTHeader, listened: set<EventType>): (r: Option<Event>)
    requires p >= 0
    ensures MpuEvent !in listened ==> r.None?
    ensures MpuEvent in listened ==> r == MPUPayloadAt(b, p, header)
  {
    if MpuEvent !in listened then None else MPUPayloadAt(b, p, header)
  }

  /** The MPU payload from p: a 16-bit length, and that many bytes that readMPU accepts. */
  function MPUPayloadAt(b: bytes, p: int, header: MMTHeader): (r: Option<Event>)
    requires p >= 0
    ensures r.Some? <==> |b| >= p + 2 && |b| >= p + 2 + U16(b, p) && MPUOf(b[p + 2..p + 2 + U16(b, p)]).Some?
    ensures r.Some? ==> r.value == Event(MpuEvent, MPUPayloadEvent(header, MPUOf(b[p + 2..p + 2 + U16(b, p)]).value))
  {
    if |b| < p + 2 then None
    else
      var payloadLength := U16(b, p);
      if |b| < p + 2 + payloadLength then None
      else
        match MPUOf(b[p + 2..p + 2 + payloadLength])
        case Some(mpu) => Some(Event(MpuEvent, MPUPayloadEvent(header, mpu)))
        case None => None
  }

  /**
   * The signalling branch from p: the fragmentation byte and the fragment
   * counter, the listener gate, aggregated payloads ignored, then the
   * fragment queue on the rest of the packet.
   */
  function SIEffect(b: bytes, p: int, packetId: nat, queue: Queue, listened: set<EventType>): (r: Effect)
    requires p >= 0
    ensures |b| < p + 2 ==> r == Effect(queue, None, false)
    ensures GatedType(packetId).Some? && GatedType(packetId).value !in listened ==> r == Effect(queue, None, false)
    ensures |b| >= p + 2 && b[p] % 2 == 1 ==> r == Effect(queue, None, false)
    ensures r.event.Some? && SectionEventType(r.event.value.eventType) ==> r.event.value.eventType in listened
  {
    if |b| < p + 2 then Effect(queue, None, false)
    else if GatedType(packetId).Some? && GatedType(packetId).value !in listened then Effect(queue, None, false)
    else
      var h := b[p];
      if h % 2 == 1 then Effect(queue, None, false)
      else
        var r := QueueEffect(queue, packetId, h / 0x40, Js.Slice(b, p + 2, |b|));
        SectionEventsGated(packetId, r.event);
        r
  }

  /**
   * One non-aggregated fragment through the queue, and the decoding of what
   * it completes.  A COMPLETE message whose decoding throws leaves the queue
   * as it was, since the delete after it never runs.
   */
  function QueueEffect(queue: Queue, packetId: nat, fi: nat, payload: bytes): (r: Effect)
    ensures r.thrown ==> r.event.None?
    ensures r.event.Some? ==> exists message :: r.event == SIEventOf(packetId, message)
    ensures forall q :: q != packetId ==> (q in r.queue <==> q in queue) && (q in queue ==> r.queue[q] == queue[q])
  {
    var step := FragmentStep(queue, packetId, fi, payload);
    if step.delivered.None? then Effect(step.queue, None, false)
    else
      var message := MessageOf(Flatten(step.delivered.value));
      if message.Thrown? then
        Effect(if fi == MMTP_FRAGMENTATION_INDICATOR_COMPLETE then queue else step.queue, None, true)
      else
        Effect(step.queue, SIEventOf(packetId, message), false)
  }

  lemma {:induction false} SectionEventsGated(packetId: nat, e: Option<Event>)
    requires e.Some? ==> exists message :: e == SIEventOf(packetId, message)
    ensures e.Some? && SectionEventType(e.value.eventType) ==> GatedType(packetId) == Some(e.value.eventType)
  {
    if e.Some? {
      var message :| e == SIEventOf(packetId, message);
    }
  }

  /**
   * `push(packet, offset)`: the header, the extension, then the branch of
   * the payload type; a packet whose header or extension does not fit, or
   * is scrambled, and one of any other payload type, changes nothing.
   */
  function PushEffect(b: bytes, o: nat, queue: Queue, listened: set<EventType>): (r: Effect)
    ensures HeaderAt(b, o).None? ==> r == Effect(queue, None, false)
    ensures HeaderAt(b, o).Some? && ExtensionAt(b, HeaderAt(b, o).value.next, HeaderAt(b, o).value.value.extensionFlag).None?
            ==> r == Effect(queue, None, false)
    ensures r.event.Some? && r.event.value.eventType == MpuEvent ==> MpuEvent in listened
    ensures r.event.Some? && SectionEventType(r.event.value.eventType) ==> r.event.value.eventType in listened
    ensures r.queue != queue || r.thrown ==> HeaderAt(b, o).Some? && HeaderAt(b, o).value.value.payloadType == MMTP_PAYLOAD_TYPE_SI
  {
    match HeaderAt(b, o)
    case None => Effect(queue, None, false)
    case Some(Field(header, p)) =>
      match ExtensionAt(b, p, header.extensionFlag)
      case None => Effect(queue, None, false)
      case Some(q) => PayloadEffect(b, q, header, queue, listened)
  }

  /** The payload from q, by the header's payload type; other payload types are ignored. */
  function PayloadEffect(b: bytes, q: int, header: MMTHeader, queue: Queue, listened: set<EventType>): (r: Effect)
    requires q >= 0
    ensures r.event.Some? && r.event.value.eventType == MpuEvent ==> MpuEvent in listened
    ensures r.event.Some? && SectionEventType(r.event.value.eventType) ==> r.event.value.eventType in listened
    ensures r.queue != queue || r.thrown ==> header.payloadType == MMTP_PAYLOAD_TYPE_SI
  {
    if header.payloadType == MMTP_PAYLOAD_TYPE_MPU then Effect(queue, MPUEffect(b, q, header, listened), false)
    else if header.payloadType == MMTP_PAYLOAD_TYPE_SI then SIEffect(b, q, header.packetId, queue, listened)
    else Effect(queue, None, false)
  }

  /**
   * An extension of type 0 whose entry list holds a scrambling entry drops
   * the packet, so by `PushEffect` nothing of it is queued or dispatched.
   */
  lemma {:induction false} ScrambledPacketDropped(b: bytes, p: nat, ext: bytes, k: nat)
    requires |b| >= p + 4 && U16(b, p) == 0 && |b| >= p + 4 + U16(b, p + 2) && ext == b[p + 4..p + 4 + U16(b, p + 2)]
    requires k < |HeaderExtensionsFrom(ext, 0)| && ScramblingEntry(HeaderExtensionsFrom(ext, 0)[k])
    ensures ExtensionAt(b, p, true).None?
  {
    ScrambledIff(ext, 0);
  }

  // ---------------------------------------------------------------------
  // The reader

  class MMTPReader {
    var siPacketQueue: Queue
    const eventTarget: Target

    constructor (eventTarget: Target)
      ensures this.eventTarget == eventTarget && siPacketQueue == map[]
    {
      this.eventTarget := eventTarget;
      siPacketQueue := map[];
    }

    method Reset()
      modifies this
      ensures siPacketQueue == map[]
    {
      siPacketQueue := map[];
    }

    /** `onSI`: decode the concatenated fragments and dispatch the event they make, if any. */
    method OnSI(packetId: nat, payloads: seq<bytes>) returns (thrown: bool)
      modifies eventTarget
      ensures thrown <==> MessageOf(Flatten(payloads)).Thrown?
      ensures eventTarget.events == old(eventTarget.events)
      ensures eventTarget.invocations
              == old(eventTarget.invocations) + Emitted(old(eventTarget.events), SIEventOf(packetId, MessageOf(Flatten(payloads))))
    {
      var buffer := ConcatBuffers(payloads);
      var message := MessageOf(buffer);
      thrown := message.Thrown?;
      var e := SIEventOf(packetId, message);
      if e.Some? {
        eventTarget.DispatchEvent(e.value.eventType, e.value.payload);
      }
    }

    method Push(packet: bytes, offset: nat) returns (thrown: bool)
      modifies this, eventTarget
      ensures var e := PushEffect(packet, offset, old(siPacketQueue), Listened(old(eventTarget.events)));
              && siPacketQueue == e.queue && thrown == e.thrown
              && eventTarget.events == old(eventTarget.events)
              && eventTarget.invocations == old(eventTarget.invocations) + Emitted(old(eventTarget.events), e.event)
    {
      var reader := new BinaryReader(packet, offset);
      var header := ReadHeader(reader);
      if header.None? {
        return false;
      }
      var h := header.value;
      var passes := ReadExtension(reader, h.extensionFlag);
      if !passes {
        return false;
      }
      assert PushEffect(packet, offset, siPacketQueue, Listened(eventTarget.events))
             == PayloadEffect(packet, reader.offset, h, siPacketQueue, Listened(eventTarget.events));
      thrown := PushPayload(reader, h);
    }

    /** The branch of `push` for the header's payload type. */
    method PushPayload(reader: BinaryReader, header: MMTHeader) returns (thrown: bool)
      requires reader.offset >= 0
      modifies this, reader, eventTarget
      ensures var e := PayloadEffect(reader.buffer, old(reader.offset), header, old(siPacketQueue), Listened(old(eventTarget.events)));
              && siPacketQueue == e.queue && thrown == e.thrown
              && eventTarget.events == old(eventTarget.events)
              && eventTarget.invocations == old(eventTarget.invocations) + Emitted(old(eventTarget.events), e.event)
    {
      thrown := false;
      if header.payloadType == MMTP_PAYLOAD_TYPE_MPU {
        PushMPU(reader, header);
      } else if header.payloadType == MMTP_PAYLOAD_TYPE_SI {
        thrown := PushSI(reader, header.packetId);
      }
    }

    /** The MPU branch of `push`. */
    method PushMPU(reader: BinaryReader, header: MMTHeader)
      requires reader.offset >= 0
      modifies reader, eventTarget
      ensures eventTarget.events == old(eventTarget.events)
      ensures eventTarget.invocations
              == old(eventTarget.invocations)
                 + Emitted(old(eventTarget.events), MPUEffect(reader.buffer, old(reader.offset), header, Listened(old(eventTarget.events))))
    {
      var listeners := eventTarget.GetListenerCount(MpuEvent);
      if listeners == 0 {
        return;
      }
      var listened := Listened(eventTarget.events);
      assert MpuEvent in listened;
      var e := ReadMPUPayload(reader, header);
      assert e == MPUEffect(reader.buffer, old(reader.offset), header, listened);
      if e.Some? {
        eventTarget.DispatchEvent(MpuEvent, e.value.payload);
      }
    }

    /** The signalling branch of `push`. */
    method PushSI(reader: BinaryReader, packetId: nat) returns (thrown: bool)
      requires reader.offset >= 0
      modifies this, reader, eventTarget
      ensures var e := SIEffect(reader.buffer, old(reader.offset), packetId, old(siPacketQueue), Listened(old(eventTarget.events)));
              && siPacketQueue == e.queue && thrown == e.thrown
              && eventTarget.events == old(eventTarget.events)
              && eventTarget.invocations == old(eventTarget.invocations) + Emitted(old(eventTarget.events), e.event)
    {
      thrown := false;
      ghost var b, p, queue, listened := reader.buffer, reader.offset, siPacketQueue, Listened(eventTarget.events);
      if !reader.CanRead(2) {
        return;
      }
      var gate := GatedType(packetId);
      if gate.Some? {
        var listeners := eventTarget.GetListenerCount(gate.value);
        if listeners == 0 {
          return;
        }
      }
      var h := reader.ReadUint8();
      var fragmentationIndicator := h / 0x40;
      var aggregationFlag := h % 2 == 1;
      var fragmentCounter := reader.ReadUint8();
      if aggregationFlag {
        return;
      }
      var tell := reader.Tell();
      var payload := Js.Slice(reader.buffer, tell, |reader.buffer|);
      assert SIEffect(b, p, packetId, queue, listened) == QueueEffect(queue, packetId, fragmentationIndicator, payload);
      thrown := Enqueue(packetId, fragmentationIndicator, payload);
    }

    /** The fragment queue of `push` for one non-aggregated payload. */
    method Enqueue(packetId: nat, fragmentationIndicator: nat, payload: bytes) returns (thrown: bool)
      modifies this, eventTarget
      ensures var e := QueueEffect(old(siPacketQueue), packetId, fragmentationIndicator, payload);
              && siPacketQueue == e.queue && thrown == e.thrown
              && eventTarget.events == old(eventTarget.events)
              && eventTarget.invocations == old(eventTarget.invocations) + Emitted(old(eventTarget.events), e.event)
    {
      thrown := false;
      if fragmentationIndicator == MMTP_FRAGMENTATION_INDICATOR_COMPLETE {
        thrown := OnSI(packetId, [payload]);
        if thrown {
          return;
        }
        siPacketQueue := siPacketQueue - {packetId};
      } else if fragmentationIndicator == MMTP_FRAGMENTATION_INDICATOR_HEAD {
        siPacketQueue := siPacketQueue[packetId := [payload]];
      } else if packetId in siPacketQueue {
        var entry := siPacketQueue[packetId] + [payload];
        siPacketQueue := siPacketQueue[packetId := entry];
        if fragmentationIndicator == MMTP_FRAGMENTATION_INDICATOR_TAIL {
          thrown := OnSI(packetId, entry);
        }
      }
    }
  }

  /** The MPU payload, advancing the cursor past it when it fits. */
  method ReadMPUPayload(reader: BinaryReader, header: MMTHeader) returns (r: Option<Event>)
    requires reader.offset >= 0
    modifies reader
    ensures r == MPUPayloadAt(reader.buffer, old(reader.offset), header)
  {
    if !reader.CanRead(2) {
      return None;
    }
    var payloadLength := reader.ReadUint16();
    if !reader.CanRead(payloadLength) {
      return None;
    }
    var data := reader.Subarray(payloadLength);
    var mpu := ReadMPU(data);
    if mpu.Some? {
      return Some(Event(MpuEvent, MPUPayloadEvent(header, mpu.value)));
    }
    return None;
  }

  /** The fixed header, advancing the cursor past it when it fits. */
  method ReadHeader(reader: BinaryReader) returns (r: Option<MMTHeader>)
    requires reader.offset >= 0
    modifies reader
    ensures var s := HeaderAt(reader.buffer, old(reader.offset));
            && (r.Some? <==> s.Some?)
            && (r.Some? ==> r.value == s.value.value && reader.offset == s.value.next)
  {
    if !reader.CanRead(1 + 1 + 2 + 4 + 4) {
      return None;
    }
    var flags := reader.ReadUint8();
    var version := flags / 0x40;
    var packetCounterFlag := flags / 0x20 % 2 == 1;
    var fecType := flags / 0x10 % 4;
    var extensionFlag := flags / 2 % 2 == 1;
    var rapFlag := flags % 2 == 1;
    var typeByte := reader.ReadUint8();
    var payloadType := typeByte % 0x40;
    var packetId := reader.ReadUint16();
    var timestamp := reader.ReadUint32();
    var packetSequenceNumber := reader.ReadUint32();
    if packetCounterFlag && !reader.CanRead(4) {
      return None;
    }
    var packetCounter: Option<nat> := None;
    if packetCounterFlag {
      var counter := reader.ReadUint32();
      packetCounter := Some(counter);
    }
    r := Some(MMTHeader(version, fecType, extensionFlag, rapFlag, payloadType, packetId, timestamp,
                        packetSequenceNumber, packetCounter));
  }

  /** The extension part of `push`: false when the packet is dropped. */
  method ReadExtension(reader: BinaryReader, extensionFlag: bool) returns (passes: bool)
    requires reader.offset >= 0
    modifies reader
    ensures var s := ExtensionAt(reader.buffer, old(reader.offset), extensionFlag);
            && (passes <==> s.Some?)
            && (passes ==> reader.offset == s.value)
  {
    if !extensionFlag {
      return true;
    }
    if !reader.CanRead(4) {
      return false;
    }
    var extensionType := reader.ReadUint16();
    var extensionLength := reader.ReadUint16();
    if !reader.CanRead(extensionLength) {
      return false;
    }
    var ext := reader.Subarray(extensionLength);
    if extensionType == 0 {
      var scrambled := WalkHeaderExtensions(ext);
      if scrambled {
        return false;
      }
    }
    return true;
  }
}
