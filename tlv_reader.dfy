// The TLV framer of src/index.ts: a carry-over buffer scanned for the 0x7F
// sync byte, cut into length-prefixed TLV packets, whose signalling packets
// are decoded as TLV-SI and whose compressed-IP packets are handed to the
// MMTP reader at the offset their context header implies.
module TlvReader {
  import opened Js
  import opened Decoding
  import opened EventTarget
  import opened Events
  import opened TlvSi
  import opened Mmtp

  const TLV_SYNC_BYTE := 0x7f
  const TLV_PACKET_TYPE_IPV6 := 0x02
  const TLV_PACKET_TYPE_COMPRESSED := 0x03
  const TLV_PACKET_TYPE_SI := 0xfe
  const TLV_PACKET_TYPE_NULL := 0xff
  const CID_HEADER_TYPE_IPV6_UDP_FULL := 0x60
  const CID_HEADER_TYPE_COMPRESSED := 0x61

  /** The offset of the MMTP packet after a full IPv6/UDP context header: 3 + 38 + 4 bytes. */
  const FULL_HEADER_MMTP_OFFSET := TLV_HEADER_SIZE + 3 + 38 + 4
  /** The offset of the MMTP packet after a compressed context header. */
  const COMPRESSED_MMTP_OFFSET := TLV_HEADER_SIZE + 3

  // ---------------------------------------------------------------------
  // Frame locator

  /** `Uint8Array.prototype.indexOf`: the first index holding x, or -1. */
  function IndexOf(b: bytes, x: byte): (r: int)
    ensures -1 <= r < |b|
    ensures r == -1 <==> x !in b
    ensures r >= 0 ==> b[r] == x && x !in b[..r]
    decreases |b|
  {
    if b == [] then -1
    else if b[0] == x then 0
    else
      var k := IndexOf(b[1..], x);
      if k == -1 then -1
      else
        assert b[..k + 1] == [b[0]] + b[1..][..k];
        k + 1
  }

  /** The packet types the framer accepts after a sync byte. */
  predicate KnownPacketType(t: byte)
  {
    t == TLV_PACKET_TYPE_IPV6 || t == TLV_PACKET_TYPE_COMPRESSED || t == TLV_PACKET_TYPE_SI || t == TLV_PACKET_TYPE_NULL
  }

  /**
   * A buffer that starts with a sync byte and does not yet hold the whole
   * frame: the header is cut short, or the type is accepted and the body its
   * length announces has not all arrived.
   */
  predicate Incomplete(b: bytes)
  {
    && |b| >= 1 && b[0] == TLV_SYNC_BYTE
    && (|b| < TLV_HEADER_SIZE || (KnownPacketType(b[1]) && |b| < TLV_HEADER_SIZE + U16(b, 2)))
  }

  /** A whole TLV packet: sync byte, accepted type, and exactly the body its length announces. */
  predicate Frame(p: bytes)
  {
    && |p| >= TLV_HEADER_SIZE && p[0] == TLV_SYNC_BYTE && KnownPacketType(p[1])
    && |p| == TLV_HEADER_SIZE + U16(p, 2)
  }

  /** What `process` returns: the bytes to drop from the buffer, and the packet cut, if any. */
  datatype Processed = Processed(consumed: nat, packet: Option<bytes>)

  /**
   * `process`: find the first sync byte, skip a false sync by one byte when
   * its type byte is itself a sync byte and by two otherwise, and cut the
   * frame once the body its length announces is all there.
   */
  function Process(b: bytes): (r: Processed)
    ensures r.consumed <= |b|
    ensures TLV_SYNC_BYTE !in b ==> r == Processed(|b|, None)
    ensures r.consumed == 0 <==> b == [] || Incomplete(b)
    ensures var s := IndexOf(b, TLV_SYNC_BYTE);
            s >= 0 && |b| >= s + TLV_HEADER_SIZE && !KnownPacketType(b[s + 1])
            ==> r == Processed(if b[s + 1] == TLV_SYNC_BYTE then s + 1 else s + 2, None)
    ensures var s := IndexOf(b, TLV_SYNC_BYTE);
            s >= 0 && Incomplete(b[s..]) ==> r == Processed(s, None)
    ensures r.packet.Some? ==>
              && Frame(r.packet.value)
              && r.consumed >= |r.packet.value|
              && b[..r.consumed] == b[..r.consumed - |r.packet.value|] + r.packet.value
              && TLV_SYNC_BYTE !in b[..r.consumed - |r.packet.value|]
  {
    var syncIndex := IndexOf(b, TLV_SYNC_BYTE);
    if syncIndex == -1 then Processed(|b|, None)
    else if |b| < syncIndex + TLV_HEADER_SIZE then Processed(syncIndex, None)
    else
      var packetType := b[syncIndex + 1];
      if !KnownPacketType(packetType) then
        if packetType == TLV_SYNC_BYTE then Processed(syncIndex + 1, None) else Processed(syncIndex + 2, None)
      else
        var length := U16(b, syncIndex + 2);
        if |b| < syncIndex + TLV_HEADER_SIZE + length then Processed(syncIndex, None)
        else
          var packet := b[syncIndex..syncIndex + TLV_HEADER_SIZE + length];
          assert U16(packet, 2) == length;
          assert b[..syncIndex + TLV_HEADER_SIZE + length] == b[..syncIndex] + packet;
          Processed(syncIndex + TLV_HEADER_SIZE + length, Some(packet))
  }

  /**
   * Bytes without a sync byte, then a whole frame, then anything: the frame
   * is cut out and the junk before it dropped with it.
   */
  lemma {:induction false} FrameCut(junk: bytes, frame: bytes, rest: bytes)
    requires TLV_SYNC_BYTE !in junk && Frame(frame)
    ensures Process(junk + frame + rest) == Processed(|junk| + |frame|, Some(frame))
  {
    var b := junk + frame + rest;
    IndexOfAfter(junk, frame + rest, TLV_SYNC_BYTE);
    assert junk + frame + rest == junk + (frame + rest);
    var s := |junk|;
    assert b[s..s + |frame|] == frame;
    assert b[s + 2] == frame[2] && b[s + 3] == frame[3];
  }

  lemma {:induction false} IndexOfAfter(junk: bytes, b: bytes, x: byte)
    requires x !in junk && |b| > 0 && b[0] == x
    ensures IndexOf(junk + b, x) == |junk|
    decreases |junk|
  {
    if junk != [] {
      assert (junk + b)[1..] == junk[1..] + b;
      IndexOfAfter(junk[1..], b, x);
    }
  }

  // ---------------------------------------------------------------------
  // Routing one packet

  /** What the framer does with the packets of one `push`: the new queue, the listener calls, and whether a decoder threw. */
  datatype Outcome = Outcome(queue: Queue, invocations: seq<Invocation<EventType, EventPayload>>, thrown: bool)

  /** A packet handed to the MMTP reader at an offset, through its `push`. */
  function MMTPOutcome(packet: bytes, offset: nat, queue: Queue, events: map<EventType, seq<Listener>>): (r: Outcome)
    ensures r.queue != queue || r.thrown ==> HeaderAt(packet, offset).Some?
    ensures |r.invocations| > 0 ==> HeaderAt(packet, offset).Some?
  {
    var e := PushEffect(packet, offset, queue, Listened(events));
    Outcome(e.queue, Emitted(events, e.event), e.thrown)
  }

  /** A TLV-SI packet: a NIT is dispatched as "nit"; an AMT and anything undecodable are dropped. */
  function SIOutcome(packet: bytes, queue: Queue, events: map<EventType, seq<Listener>>): (r: Outcome)
    ensures r.queue == queue
    ensures r.thrown <==> TLVSIOf(packet).Thrown?
    ensures |r.invocations| > 0 ==> TLVSIOf(packet).Ok? && TLVSIOf(packet).value.NIT?
    ensures TLVSIOf(packet).Ok? && TLVSIOf(packet).value.NIT? ==>
              r.invocations == Calls(ListenersOf(events, Nit), Nit, TLVSIEvent(TLVSIOf(packet).value))
  {
    match TLVSIOf(packet)
    case Ok(si) =>
      if si.NIT? then Outcome(queue, Emitted(events, Some(Event(Nit, TLVSIEvent(si)))), false)
      else Outcome(queue, [], false)
    case Thrown => Outcome(queue, [], true)
    case Undefined => Outcome(queue, [], false)
  }

  /**
   * A compressed-IP packet of at least 8 bytes: the context header type at
   * byte 6 picks where the MMTP packet starts; a full IPv6/UDP header is
   * skipped only when all 49 bytes are there.
   */
  function CompressedOutcome(packet: bytes, queue: Queue, events: map<EventType, seq<Listener>>): (r: Outcome)
    ensures |packet| < TLV_HEADER_SIZE + 4 ==> r == Outcome(queue, [], false)
    ensures |packet| >= TLV_HEADER_SIZE + 4 && packet[6] == CID_HEADER_TYPE_COMPRESSED
            ==> r == MMTPOutcome(packet, COMPRESSED_MMTP_OFFSET, queue, events)
    ensures |packet| >= TLV_HEADER_SIZE + 4 && packet[6] == CID_HEADER_TYPE_IPV6_UDP_FULL
            ==> r == (if |packet| < FULL_HEADER_MMTP_OFFSET then Outcome(queue, [], false)
                     else MMTPOutcome(packet, FULL_HEADER_MMTP_OFFSET, queue, events))
    ensures |packet| >= TLV_HEADER_SIZE + 4 && packet[6] != CID_HEADER_TYPE_COMPRESSED && packet[6] != CID_HEADER_TYPE_IPV6_UDP_FULL
            ==> r == Outcome(queue, [], false)
  {
    if |packet| < TLV_HEADER_SIZE + 4 then Outcome(queue, [], false)
    else
      var cidHeaderType := packet[TLV_HEADER_SIZE + 2];
      if cidHeaderType == CID_HEADER_TYPE_IPV6_UDP_FULL then
        if |packet| < FULL_HEADER_MMTP_OFFSET then Outcome(queue, [], false)
        else MMTPOutcome(packet, FULL_HEADER_MMTP_OFFSET, queue, events)
      else if cidHeaderType == CID_HEADER_TYPE_COMPRESSED then MMTPOutcome(packet, COMPRESSED_MMTP_OFFSET, queue, events)
      else Outcome(queue, [], false)
  }

  /**
   * The listeners the framer's own "nit" dispatch reaches: all of them while
   * it holds its event target, none once `close` has deleted it.
   */
  function OwnListeners(events: map<EventType, seq<Listener>>, attached: bool): (r: map<EventType, seq<Listener>>)
    ensures attached ==> r == events
    ensures !attached ==> forall t :: ListenersOf(r, t) == []
  {
    if attached then events else map[]
  }

  /**
   * One packet by its type byte; IPv6 (NTP) and null packets are ignored.
   * The MMTP reader dispatches to the listeners whether or not the framer
   * still holds its event target.
   */
  function PacketOutcome(packet: bytes, queue: Queue, events: map<EventType, seq<Listener>>, attached: bool): (r: Outcome)
    requires |packet| >= 2
    ensures packet[1] != TLV_PACKET_TYPE_SI && packet[1] != TLV_PACKET_TYPE_COMPRESSED ==> r == Outcome(queue, [], false)
    ensures packet[1] == TLV_PACKET_TYPE_SI ==> r == SIOutcome(packet, queue, OwnListeners(events, attached))
    ensures packet[1] == TLV_PACKET_TYPE_COMPRESSED ==> r == CompressedOutcome(packet, queue, events)
  {
    var packetType := packet[1];
    if packetType == TLV_PACKET_TYPE_SI then SIOutcome(packet, queue, OwnListeners(events, attached))
    else if packetType == TLV_PACKET_TYPE_COMPRESSED then CompressedOutcome(packet, queue, events)
    else Outcome(queue, [], false)
  }

  /**
   * After `close`, a packet does to the fragment queue, and to whether a
   * decoder throws, what it did before; the only difference is that a
   * TLV-SI packet no longer calls any listener.
   */
  lemma {:induction false} ClosedOutcome(packet: bytes, queue: Queue, events: map<EventType, seq<Listener>>)
    requires |packet| >= 2
    ensures var open, closed := PacketOutcome(packet, queue, events, true), PacketOutcome(packet, queue, events, false);
      && closed.queue == open.queue && closed.thrown == open.thrown
      && (packet[1] == TLV_PACKET_TYPE_SI ==> closed.invocations == [])
      && (packet[1] != TLV_PACKET_TYPE_SI ==> closed == open)
  {
    if packet[1] == TLV_PACKET_TYPE_SI && TLVSIOf(packet).Ok? && TLVSIOf(packet).value.NIT? {
      assert ListenersOf(OwnListeners(events, false), Nit) == [];
    }
  }

  // ---------------------------------------------------------------------
  // The push loop

  /** What routing one packet does, given the fragment queue before it. */
  type Router = (bytes, Queue) -> Outcome

  /** The routing of `push` for a fixed set of listeners, with or without the framer's event target. */
  function RouterOf(events: map<EventType, seq<Listener>>, attached: bool): (r: Router)
    ensures forall packet: bytes, queue: Queue :: |packet| >= 2 ==> r(packet, queue) == PacketOutcome(packet, queue, events, attached)
  {
    (packet: bytes, queue: Queue) => if |packet| >= 2 then PacketOutcome(packet, queue, events, attached) else Outcome(queue, [], false)
  }

  /** Where the push loop ends: the bytes kept for the next block, and what the packets did. */
  datatype Drained = Drained(rest: bytes, outcome: Outcome)

  /**
   * The loop of `push` on a buffer: cut packets until the buffer is empty or
   * holds only an incomplete frame, routing each packet; a decoder that
   * throws ends the loop with the buffer already past its packet.
   */
  function Drain(b: bytes, queue: Queue, route: Router): (r: Drained)
    ensures |r.rest| <= |b|
    ensures !r.outcome.thrown ==> r.rest == [] || Incomplete(r.rest)
    decreases |b|
  {
    if |b| == 0 then Drained(b, Outcome(queue, [], false))
    else
      var p := Process(b);
      if p.consumed == 0 then Drained(b, Outcome(queue, [], false))
      else
        var rest := b[p.consumed..];
        if p.packet.None? then Drain(rest, queue, route)
        else
          var o := route(p.packet.value, queue);
          if o.thrown then Drained(rest, o)
          else
            var d := Drain(rest, o.queue, route);
            Drained(d.rest, Outcome(d.outcome.queue, o.invocations + d.outcome.invocations, d.outcome.thrown))
  }

  /** Drain of a buffer that holds nothing but junk without a sync byte: all of it dropped. */
  lemma {:induction false} JunkDropped(b: bytes, queue: Queue, route: Router)
    requires TLV_SYNC_BYTE !in b
    ensures Drain(b, queue, route) == Drained([], Outcome(queue, [], false))
  {
    if |b| > 0 {
      assert b[|b|..] == [];
    }
  }

  /** Drain of a buffer whose whole content is one incomplete frame: it is kept and nothing happens. */
  lemma {:induction false} IncompleteKept(b: bytes, queue: Queue, route: Router)
    requires Incomplete(b)
    ensures Drain(b, queue, route) == Drained(b, Outcome(queue, [], false))
  {
  }

  // ---------------------------------------------------------------------
  // The reader

  class MMTTLVReader {
    /** `buffer`: the bytes after the last packet cut, kept for the next block. */
    var buffer: bytes
    /** Whether the reader still holds its event target, which `close` deletes; the MMTP reader keeps its own reference. */
    var attached: bool
    const mmtpReader: MMTPReader

    ghost predicate Valid()
      reads this, mmtpReader, mmtpReader.eventTarget
    {
      mmtpReader.eventTarget.Valid()
    }

    constructor ()
      ensures Valid() && fresh(mmtpReader) && fresh(mmtpReader.eventTarget)
      ensures buffer == [] && attached && mmtpReader.siPacketQueue == map[]
      ensures mmtpReader.eventTarget.events == map[] && mmtpReader.eventTarget.invocations == []
    {
      buffer := [];
      attached := true;
      var eventTarget := new CustomEventTarget<EventType, EventPayload>();
      mmtpReader := new MMTPReader(eventTarget);
    }

    method AddEventListener(eventType: EventType, callback: Listener)
      requires Valid()
      modifies mmtpReader.eventTarget
      ensures Valid()
      ensures attached ==>
                mmtpReader.eventTarget.events
                == old(mmtpReader.eventTarget.events)[eventType := SetAdd(old(mmtpReader.eventTarget.Listeners(eventType)), callback)]
      ensures !attached ==> mmtpReader.eventTarget.events == old(mmtpReader.eventTarget.events)
      ensures mmtpReader.eventTarget.invocations == old(mmtpReader.eventTarget.invocations)
    {
      if attached {
        mmtpReader.eventTarget.AddEventListener(eventType, callback);
      }
    }

    method RemoveEventListener(eventType: EventType, callback: Listener)
      requires Valid()
      modifies mmtpReader.eventTarget
      ensures Valid()
      ensures attached && eventType in old(mmtpReader.eventTarget.events) ==>
                mmtpReader.eventTarget.events
                == old(mmtpReader.eventTarget.events)[eventType := SetDelete(old(mmtpReader.eventTarget.events)[eventType], callback)]
      ensures !attached || eventType !in old(mmtpReader.eventTarget.events) ==>
                mmtpReader.eventTarget.events == old(mmtpReader.eventTarget.events)
      ensures mmtpReader.eventTarget.invocations == old(mmtpReader.eventTarget.invocations)
    {
      if attached {
        mmtpReader.eventTarget.RemoveEventListener(eventType, callback);
      }
    }

    /**
     * `close`: the reader deletes its event target, so its own "nit"
     * dispatch and listener changes stop; the buffer and the MMTP reader,
     * which still holds the target, are left as they are.
     */
    method Close()
      modifies this
      ensures !attached && buffer == old(buffer)
    {
      attached := false;
    }

    /** `reset`: the carry buffer and the MMTP fragment queue are emptied. */
    method Reset()
      modifies this, mmtpReader
      ensures buffer == [] && attached == old(attached) && mmtpReader.siPacketQueue == map[]
    {
      buffer := [];
      mmtpReader.Reset();
    }

    /**
     * `push`: an empty block is ignored; otherwise the block is appended to
     * the buffer and the buffer drained.  The listeners are left alone.
     */
    method Push(block: bytes) returns (thrown: bool)
      modifies this, mmtpReader, mmtpReader.eventTarget
      ensures |block| == 0 ==> !thrown && buffer == old(buffer) && mmtpReader.siPacketQueue == old(mmtpReader.siPacketQueue)
                               && mmtpReader.eventTarget.invocations == old(mmtpReader.eventTarget.invocations)
      ensures |block| > 0 ==>
                var d := Drain(old(buffer) + block, old(mmtpReader.siPacketQueue), RouterOf(old(mmtpReader.eventTarget.events), attached));
                && buffer == d.rest && thrown == d.outcome.thrown
                && mmtpReader.siPacketQueue == d.outcome.queue
                && mmtpReader.eventTarget.invocations == old(mmtpReader.eventTarget.invocations) + d.outcome.invocations
      ensures mmtpReader.eventTarget.events == old(mmtpReader.eventTarget.events) && attached == old(attached)
    {
      thrown := false;
      if |block| == 0 {
        return;
      }
      buffer := buffer + block;
      ghost var events := mmtpReader.eventTarget.events;
      ghost var route := RouterOf(events, attached);
      ghost var target := Drain(buffer, mmtpReader.siPacketQueue, route);
      ghost var start := mmtpReader.eventTarget.invocations;
      while |buffer| != 0
        invariant mmtpReader.eventTarget.events == events && attached == old(attached)
        invariant DrainsTo(buffer, mmtpReader.siPacketQueue, route, target)
        invariant mmtpReader.eventTarget.invocations + Drain(buffer, mmtpReader.siPacketQueue, route).outcome.invocations
                  == start + target.outcome.invocations
        decreases |buffer|
      {
        var processed := Process(buffer);
        if processed.consumed == 0 {
          break;
        }
        ghost var before, queue, calls := buffer, mmtpReader.siPacketQueue, mmtpReader.eventTarget.invocations;
        buffer := buffer[processed.consumed..];
        if processed.packet.Some? {
          thrown := Route(processed.packet.value);
          DrainPacket(before, queue, route, calls, mmtpReader.siPacketQueue, mmtpReader.eventTarget.invocations, thrown);
          if thrown {
            return;
          }
        }
      }
    }

    /** The routing of one packet cut by `process`. */
    method Route(packet: bytes) returns (thrown: bool)
      requires |packet| >= 2
      modifies mmtpReader, mmtpReader.eventTarget
      ensures var o := PacketOutcome(packet, old(mmtpReader.siPacketQueue), old(mmtpReader.eventTarget.events), attached);
              && mmtpReader.siPacketQueue == o.queue && thrown == o.thrown
              && mmtpReader.eventTarget.invocations == old(mmtpReader.eventTarget.invocations) + o.invocations
      ensures mmtpReader.eventTarget.events == old(mmtpReader.eventTarget.events)
    {
      thrown := false;
      var packetType := packet[1];
      if packetType == TLV_PACKET_TYPE_SI {
        thrown := OnSI(packet);
      } else if packetType == TLV_PACKET_TYPE_COMPRESSED {
        thrown := RouteCompressed(packet);
      }
    }

    /** `onSI`: decode the TLV-SI table and dispatch it when it is a NIT. */
    method OnSI(packet: bytes) returns (thrown: bool)
      modifies mmtpReader.eventTarget
      ensures var o := SIOutcome(packet, mmtpReader.siPacketQueue, OwnListeners(old(mmtpReader.eventTarget.events), attached));
              && thrown == o.thrown
              && mmtpReader.eventTarget.invocations == old(mmtpReader.eventTarget.invocations) + o.invocations
      ensures mmtpReader.eventTarget.events == old(mmtpReader.eventTarget.events)
    {
      var si := ReadTLVSI(packet);
      thrown := si.Thrown?;
      if attached && si.Ok? && si.value.NIT? {
        mmtpReader.eventTarget.DispatchEvent(Nit, TLVSIEvent(si.value));
      }
    }

    /** The compressed-IP branch of `push`. */
    method RouteCompressed(packet: bytes) returns (thrown: bool)
      modifies mmtpReader, mmtpReader.eventTarget
      ensures var o := CompressedOutcome(packet, old(mmtpReader.siPacketQueue), old(mmtpReader.eventTarget.events));
              && mmtpReader.siPacketQueue == o.queue && thrown == o.thrown
              && mmtpReader.eventTarget.invocations == old(mmtpReader.eventTarget.invocations) + o.invocations
      ensures mmtpReader.eventTarget.events == old(mmtpReader.eventTarget.events)
    {
      thrown := false;
      if |packet| < TLV_HEADER_SIZE + 4 {
        return;
      }
      var cidHeaderType := packet[TLV_HEADER_SIZE + 2];
      if cidHeaderType == CID_HEADER_TYPE_IPV6_UDP_FULL {
        if |packet| < FULL_HEADER_MMTP_OFFSET {
          return;
        }
        thrown := mmtpReader.Push(packet, FULL_HEADER_MMTP_OFFSET);
      } else if cidHeaderType == CID_HEADER_TYPE_COMPRESSED {
        thrown := mmtpReader.Push(packet, COMPRESSED_MMTP_OFFSET);
      }
    }
  }

  /** The loop invariant of `push`: draining what is left ends where draining the whole buffer ends. */
  ghost predicate DrainsTo(b: bytes, queue: Queue, route: Router, target: Drained)
  {
    var d := Drain(b, queue, route);
    d.rest == target.rest && d.outcome.queue == target.outcome.queue && d.outcome.thrown == target.outcome.thrown
  }

  /** One turn of the push loop that routes a packet keeps the loop invariant, and ends it as Drain does on a throw. */
  lemma {:induction false} DrainPacket(
    b: bytes, queue: Queue, route: Router,
    calls: seq<Invocation<EventType, EventPayload>>,
    queue': Queue, calls': seq<Invocation<EventType, EventPayload>>, thrown: bool)
    requires |b| > 0 && Process(b).consumed > 0 && Process(b).packet.Some?
    requires var o := route(Process(b).packet.value, queue);
             queue' == o.queue && thrown == o.thrown && calls' == calls + o.invocations
    ensures var rest := b[Process(b).consumed..];
            && (thrown ==> Drain(b, queue, route) == Drained(rest, Outcome(queue', calls'[|calls|..], true)))
            && (!thrown ==>
                  && Drain(b, queue, route).rest == Drain(rest, queue', route).rest
                  && Drain(b, queue, route).outcome.queue == Drain(rest, queue', route).outcome.queue
                  && Drain(b, queue, route).outcome.thrown == Drain(rest, queue', route).outcome.thrown
                  && calls + Drain(b, queue, route).outcome.invocations == calls' + Drain(rest, queue', route).outcome.invocations)
  {
    var p := Process(b);
    var o := route(p.packet.value, queue);
    var rest := b[p.consumed..];
    DrainUnfold(b, queue, route);
    if thrown {
      assert calls'[|calls|..] == o.invocations;
    } else {
      var d := Drain(rest, queue', route).outcome.invocations;
      ConcatAssoc(calls, o.invocations, d);
    }
  }

  lemma {:induction false} DrainUnfold(b: bytes, queue: Queue, route: Router)
    requires |b| > 0 && Process(b).consumed > 0 && Process(b).packet.Some?
    ensures var p := Process(b);
            var o := route(p.packet.value, queue);
            var rest := b[p.consumed..];
            Drain(b, queue, route)
            == if o.thrown then Drained(rest, o)
               else
                 var d := Drain(rest, o.queue, route);
                 Drained(d.rest, Outcome(d.outcome.queue, o.invocations + d.outcome.invocations, d.outcome.thrown))
  {
  }
}
