// The transport stream reader of src/ts/reader.ts: pushed blocks are joined
// to a carry-over buffer, the packet size and the first packet are found by
// looking for sync bytes at a fixed stride, the buffer is cut into packets
// of that size, and each packet's header is decoded and handed to the
// section reader.
module TsReader {
  import opened Js
  import opened Decoding
  import opened EventTarget
  import opened TsSi
  import opened TsEvents
  import opened TsSectionReader

  const TS_SYNC_BYTE := 0x47
  /** The bytes of a packet that are read: a 192- or 204-byte packet carries 188 of them and a trailer. */
  const TS_PACKET_SIZE := 188
  const MIN_SYNC_COUNT := 6
  /** An unsynchronised buffer longer than this is dropped. */
  const UNSYNCED_LIMIT := MIN_SYNC_COUNT * 204 * 2

  /** The packet sizes `resync` tries, in order. */
  const PACKET_SIZES: seq<nat> := [188, 192, 204]

  predicate PacketSize(n: nat)
  {
    n == 188 || n == 192 || n == 204
  }

  // ---------------------------------------------------------------------
  // Packet header

  /**
   * `processPacket`'s header decoding: a packet with the transport error
   * indicator, with scrambling, or without a payload is dropped; otherwise
   * the payload starts after the 4-byte header and the adaptation field, if
   * any.
   */
  function PacketOf(packet: bytes): (r: Option<TSPacket>)
    requires |packet| == TS_PACKET_SIZE
    ensures r.Some? <==> packet[1] < 0x80 && packet[3] / 0x40 == 0 && packet[3] / 0x10 % 2 == 1
    ensures r.Some? ==>
              && !r.value.transportErrorIndicator && r.value.transportScramblingControl == 0
              && (r.value.adaptationFieldControl == 1 || r.value.adaptationFieldControl == 3)
              && r.value.pid < 0x2000 && r.value.continuityCounter < 16
              && |r.value.payload| <= TS_PACKET_SIZE - 4
  {
    var transportErrorIndicator := packet[1] >= 0x80;
    if transportErrorIndicator then None
    else
      var payloadUnitStartIndicator := packet[1] / 0x40 % 2 == 1;
      var transportPriority := packet[1] / 0x20 % 2 == 1;
      var pid := U16(packet, 1) % 0x2000;
      var transportScramblingControl := packet[3] / 0x40;
      var adaptationFieldControl := packet[3] / 0x10 % 4;
      var continuityCounter := packet[3] % 16;
      var payloadOffset: nat := if adaptationFieldControl == 2 || adaptationFieldControl == 3 then 4 + 1 + (packet[4] as int) else 4;
      if transportScramblingControl != 0 then None
      else if adaptationFieldControl != 1 && adaptationFieldControl != 3 then None
      else
        Some(TSPacket(
          transportErrorIndicator, payloadUnitStartIndicator, transportPriority, pid,
          transportScramblingControl, adaptationFieldControl, continuityCounter,
          Js.Slice(packet, payloadOffset, |packet|)))
  }

  /** The 4-byte header of an error-free, unscrambled packet. */
  ghost function EncodeHeader(start: bool, priority: bool, pid: nat, adaptationFieldControl: nat, continuityCounter: nat): (r: bytes)
    requires pid < 0x2000 && adaptationFieldControl < 4 && continuityCounter < 16
  {
    [TS_SYNC_BYTE,
     (if start then 0x40 else 0) + (if priority then 0x20 else 0) + pid / 0x100,
     pid % 0x100,
     adaptationFieldControl * 0x10 + continuityCounter]
  }

  lemma {:induction false} HeaderFields(start: bool, priority: bool, pid: nat, adaptationFieldControl: nat, continuityCounter: nat, packet: bytes)
    requires pid < 0x2000 && adaptationFieldControl < 4 && continuityCounter < 16
    requires |packet| == TS_PACKET_SIZE && packet[..4] == EncodeHeader(start, priority, pid, adaptationFieldControl, continuityCounter)
    ensures packet[1] < 0x80 && packet[3] / 0x40 == 0
    ensures (packet[1] / 0x40 % 2 == 1) == start && (packet[1] / 0x20 % 2 == 1) == priority
    ensures U16(packet, 1) % 0x2000 == pid
    ensures packet[3] / 0x10 % 4 == adaptationFieldControl && packet[3] % 16 == continuityCounter
  {
    var h := EncodeHeader(start, priority, pid, adaptationFieldControl, continuityCounter);
    assert packet[1] == h[1] && packet[2] == h[2] && packet[3] == h[3];
    var flags := (if start then 0x40 else 0) + (if priority then 0x20 else 0);
    assert packet[1] == flags + pid / 0x100;
    assert U16(packet, 1) == flags * 0x100 + pid;
  }

  /** A packet with a payload and no adaptation field decodes to its header fields and the 184 bytes after the header. */
  lemma {:induction false} PacketRoundTrip(start: bool, priority: bool, pid: nat, continuityCounter: nat, payload: bytes)
    requires pid < 0x2000 && continuityCounter < 16 && |payload| == TS_PACKET_SIZE - 4
    ensures PacketOf(EncodeHeader(start, priority, pid, 1, continuityCounter) + payload)
            == Some(TSPacket(false, start, priority, pid, 0, 1, continuityCounter, payload))
  {
    var packet := EncodeHeader(start, priority, pid, 1, continuityCounter) + payload;
    assert packet[..4] == EncodeHeader(start, priority, pid, 1, continuityCounter);
    HeaderFields(start, priority, pid, 1, continuityCounter, packet);
    assert Js.Slice(packet, 4, |packet|) == packet[4..] == payload;
  }

  /** A packet with an adaptation field and a payload decodes to the bytes after the adaptation field. */
  lemma {:induction false} AdaptedPacketRoundTrip(
    start: bool, priority: bool, pid: nat, continuityCounter: nat, adaptation: bytes, payload: bytes)
    requires pid < 0x2000 && continuityCounter < 16 && |adaptation| + |payload| == TS_PACKET_SIZE - 5
    ensures PacketOf(EncodeHeader(start, priority, pid, 3, continuityCounter) + [|adaptation| as byte] + adaptation + payload)
            == Some(TSPacket(false, start, priority, pid, 0, 3, continuityCounter, payload))
  {
    var packet := EncodeHeader(start, priority, pid, 3, continuityCounter) + [|adaptation| as byte] + adaptation + payload;
    assert packet[..4] == EncodeHeader(start, priority, pid, 3, continuityCounter);
    HeaderFields(start, priority, pid, 3, continuityCounter, packet);
    assert packet[4] == |adaptation|;
    assert Js.Slice(packet, 5 + |adaptation|, |packet|) == packet[5 + |adaptation|..] == payload;
  }

  // ---------------------------------------------------------------------
  // Synchronisation

  /** Where `resync` found the stream: the packet size and the offset of the first packet. */
  datatype Lock = Lock(packetSize: nat, packetOffset: nat)

  /** The index of the k-th packet start from an offset, one stride at a time. */
  function StrideIndex(offset: nat, size: nat, k: nat): (r: nat)
    ensures r >= offset
    decreases k
  {
    if k == 0 then offset else StrideIndex(offset, size, k - 1) + size
  }

  lemma {:induction false} StrideIndexIs(offset: nat, size: nat, k: nat)
    ensures StrideIndex(offset, size, k) == offset + k * size
    decreases k
  {
    if k > 0 {
      StrideIndexIs(offset, size, k - 1);
      assert k * size == (k - 1) * size + size;
    }
  }

  /** Starting one stride later is skipping the first packet start. */
  lemma {:induction false} StrideShift(offset: nat, size: nat, k: nat)
    ensures StrideIndex(offset + size, size, k) == StrideIndex(offset, size, k + 1)
    decreases k
  {
    if k > 0 {
      StrideShift(offset, size, k - 1);
    }
  }

  /** `count` sync bytes at stride `size` from `offset`, all inside the buffer. */
  predicate SyncedAt(b: bytes, offset: nat, size: nat, count: nat)
  {
    forall k: nat :: k < count ==> StrideIndex(offset, size, k) < |b| && b[StrideIndex(offset, size, k)] == TS_SYNC_BYTE
  }

  /** The middle loop of `resync`: the first candidate offset from `offset` on that is synced. */
  function FirstSynced(b: bytes, size: nat, count: nat, offset: nat): (r: Option<nat>)
    decreases |b| - offset
  {
    if offset + size * count >= |b| then None
    else if SyncedAt(b, offset, size, count) then Some(offset)
    else FirstSynced(b, size, count, offset + 1)
  }

  /** The outer loop of `resync`: the sizes tried in order. */
  function ResyncFrom(b: bytes, count: nat, sizes: seq<nat>): (r: Option<Lock>)
    decreases |sizes|
  {
    if sizes == [] then None
    else match FirstSynced(b, sizes[0], count, 0)
      case Some(offset) => Some(Lock(sizes[0], offset))
      case None => ResyncFrom(b, count, sizes[1..])
  }

  function ResyncOf(b: bytes, count: nat): (r: Option<Lock>)
  {
    ResyncFrom(b, count, PACKET_SIZES)
  }

  /** FirstSynced finds the smallest synced candidate offset, or there is none. */
  lemma {:induction false} FirstSyncedIsFirst(b: bytes, size: nat, count: nat, offset: nat)
    ensures var r := FirstSynced(b, size, count, offset);
            && (r.Some? ==>
                  && offset <= r.value && r.value + size * count < |b| && SyncedAt(b, r.value, size, count)
                  && forall o: nat :: offset <= o < r.value ==> !SyncedAt(b, o, size, count))
            && (r.None? ==> forall o: nat :: offset <= o && o + size * count < |b| ==> !SyncedAt(b, o, size, count))
    decreases |b| - offset
  {
    if offset + size * count < |b| && !SyncedAt(b, offset, size, count) {
      FirstSyncedIsFirst(b, size, count, offset + 1);
    }
  }

  /**
   * `resync` answers the first packet size, in the order 188, 192, 204, at
   * which some candidate offset holds `count` sync bytes, with the smallest
   * such offset; no answer means no size has one.
   */
  lemma {:induction false} ResyncIsFirst(b: bytes, count: nat)
    ensures var r := ResyncOf(b, count);
            && (r.Some? ==>
                  && PacketSize(r.value.packetSize)
                  && r.value.packetOffset + r.value.packetSize * count < |b|
                  && SyncedAt(b, r.value.packetOffset, r.value.packetSize, count)
                  && (forall o: nat :: o < r.value.packetOffset ==> !SyncedAt(b, o, r.value.packetSize, count))
                  && (forall s: nat, o: nat :: PacketSize(s) && s < r.value.packetSize && o + s * count < |b| ==> !SyncedAt(b, o, s, count)))
            && (r.None? ==> forall s: nat, o: nat :: PacketSize(s) && o + s * count < |b| ==> !SyncedAt(b, o, s, count))
  {
    FirstSyncedIsFirst(b, 188, count, 0);
    FirstSyncedIsFirst(b, 192, count, 0);
    FirstSyncedIsFirst(b, 204, count, 0);
    var s := PACKET_SIZES;
    assert s[1..][1..][1..] == [];
  }

  /** A buffer that holds packets of 188 bytes from its start is locked at offset 0 with size 188. */
  lemma {:induction false} ResyncAligned(b: bytes)
    requires |b| > MIN_SYNC_COUNT * 188
    requires forall k: nat :: k < MIN_SYNC_COUNT ==> b[k * 188] == TS_SYNC_BYTE
    ensures ResyncOf(b, MIN_SYNC_COUNT) == Some(Lock(188, 0))
  {
    assert SyncedAt(b, 0, 188, MIN_SYNC_COUNT) by {
      forall k: nat | k < MIN_SYNC_COUNT
        ensures StrideIndex(0, 188, k) < |b| && b[StrideIndex(0, 188, k)] == TS_SYNC_BYTE
      {
        StrideIndexIs(0, 188, k);
        assert b[k * 188] == TS_SYNC_BYTE;
      }
    }
  }

  /** The innermost loop of `resync`: a missing byte reads as undefined, which is no sync byte. */
  method IsSynced(buffer: bytes, offset: nat, packetSize: nat, minSyncCount: nat) returns (synced: bool)
    ensures synced == SyncedAt(buffer, offset, packetSize, minSyncCount)
  {
    for count := 0 to minSyncCount
      invariant SyncedAt(buffer, offset, packetSize, count)
    {
      var i := offset + count * packetSize;
      StrideIndexIs(offset, packetSize, count);
      if i >= |buffer| || buffer[i] != TS_SYNC_BYTE {
        return false;
      }
    }
    return true;
  }

  /** `resync`. */
  method Resync(buffer: bytes, minSyncCount: nat) returns (r: Option<Lock>)
    ensures r == ResyncOf(buffer, minSyncCount)
  {
    var sizes := PACKET_SIZES;
    for i := 0 to |sizes|
      invariant ResyncFrom(buffer, minSyncCount, sizes[i..]) == ResyncOf(buffer, minSyncCount)
    {
      var packetSize := sizes[i];
      var offset := 0;
      while offset + packetSize * minSyncCount < |buffer|
        invariant FirstSynced(buffer, packetSize, minSyncCount, offset) == FirstSynced(buffer, packetSize, minSyncCount, 0)
        decreases |buffer| - offset
      {
        var synced := IsSynced(buffer, offset, packetSize, minSyncCount);
        if synced {
          return Some(Lock(packetSize, offset));
        }
        offset := offset + 1;
      }
      assert sizes[i..][1..] == sizes[i + 1..];
    }
    return None;
  }

  // ---------------------------------------------------------------------
  // Framing

  /**
   * One packet the push loop hands to `processPacket`: the offset it is
   * reported with, its 188 bytes, and the buffer and packet size at that
   * point (which stay behind when processing it throws).
   */
  datatype Slot = Slot(position: int, packet: bytes, buffer: bytes, packetSize: nat)

  /** The packets one push hands on, and the buffer and packet size it leaves when none throws. */
  datatype Framing = Framing(slots: seq<Slot>, rest: bytes, packetSize: Option<nat>)

  predicate IsSuffix(x: bytes, y: bytes)
  {
    |x| <= |y| && x == y[|y| - |x|..]
  }

  /** What is left of an unsynchronised buffer: all of it, unless it is over the limit. */
  function Unsynced(b: bytes): (r: bytes)
    ensures |r| <= UNSYNCED_LIMIT && IsSuffix(r, b)
  {
    if |b| > UNSYNCED_LIMIT then [] else b
  }

  /** A slot as the push loop makes it. */
  predicate WellFormedSlot(s: Slot)
  {
    |s.packet| == TS_PACKET_SIZE && s.packet[0] == TS_SYNC_BYTE && PacketSize(s.packetSize)
  }

  /**
   * The loop of `push` from `off` in `buf`: while a whole packet is left, a
   * packet whose first byte is the sync byte is handed on and the offset
   * moves by the packet size; any other drops the buffer up to the next
   * packet and synchronises again.  The reported offset is the stream
   * position of `buf`'s start when the push began plus the offset already
   * moved past the packet, and the buffer left is the bytes from the last
   * offset.
   */
  function FrameFrom(base: int, buf: bytes, size: nat, off: nat): (r: Framing)
    requires PacketSize(size) && off <= |buf|
    ensures r.packetSize.Some? && PacketSize(r.packetSize.value)
    decreases |buf|, 0, |buf| - off
  {
    if |buf| - off < size then Framing([], buf[off..], Some(size))
    else
      var packet := buf[off..off + TS_PACKET_SIZE];
      var next := off + size;
      if packet[0] != TS_SYNC_BYTE then Relocked(base, buf[next..], size)
      else
        var f := FrameFrom(base, buf, size, next);
        Framing([Slot(base + next, packet, buf, size)] + f.slots, f.rest, f.packetSize)
  }

  /**
   * After a packet without the sync byte: the buffer from the next packet
   * on is synchronised again, and either cut from the new lock with the new
   * packet size or kept, up to the limit, with the old packet size.
   */
  function Relocked(base: int, cut: bytes, size: nat): (r: Framing)
    requires PacketSize(size)
    ensures r.packetSize.Some? && PacketSize(r.packetSize.value)
    decreases |cut|, 1, 0
  {
    match ResyncOf(cut, MIN_SYNC_COUNT)
    case None => Framing([], Unsynced(cut), Some(size))
    case Some(lock) =>
      ResyncIsFirst(cut, MIN_SYNC_COUNT);
      FrameFrom(base, cut, lock.packetSize, lock.packetOffset)
  }

  /**
   * What a push leaves and hands on is cut from the buffer it works on:
   * every slot is a whole 188-byte packet starting with the sync byte, and
   * the buffer kept is a suffix no longer than the unsynchronised limit.
   */
  ghost predicate Shaped(f: Framing, buf: bytes)
  {
    && IsSuffix(f.rest, buf) && |f.rest| <= UNSYNCED_LIMIT
    && forall i :: 0 <= i < |f.slots| ==> WellFormedSlot(f.slots[i]) && IsSuffix(f.slots[i].buffer, buf)
  }

  lemma {:induction false} FrameFromShaped(base: int, buf: bytes, size: nat, off: nat)
    requires PacketSize(size) && off <= |buf|
    ensures Shaped(FrameFrom(base, buf, size, off), buf)
    decreases |buf|, 0, |buf| - off
  {
    if |buf| - off >= size {
      var packet := buf[off..off + TS_PACKET_SIZE];
      var next := off + size;
      if packet[0] != TS_SYNC_BYTE {
        RelockedShaped(base, buf[next..], size);
        SuffixesOfCut(buf, next, Relocked(base, buf[next..], size));
      } else {
        FrameFromShaped(base, buf, size, next);
        var f := FrameFrom(base, buf, size, next);
        var r := Framing([Slot(base + next, packet, buf, size)] + f.slots, f.rest, f.packetSize);
        assert forall i :: 1 <= i < |r.slots| ==> r.slots[i] == f.slots[i - 1];
        assert IsSuffix(buf, buf);
      }
    }
  }

  lemma {:induction false} RelockedShaped(base: int, cut: bytes, size: nat)
    requires PacketSize(size)
    ensures Shaped(Relocked(base, cut, size), cut)
    decreases |cut|, 1, 0
  {
    match ResyncOf(cut, MIN_SYNC_COUNT)
    case None =>
    case Some(lock) =>
      ResyncIsFirst(cut, MIN_SYNC_COUNT);
      FrameFromShaped(base, cut, lock.packetSize, lock.packetOffset);
  }

  /** A push that does not end unsynchronised stops with less than a packet size left. */
  ghost predicate RestShort(f: Framing, buf: bytes)
    requires f.packetSize.Some?
  {
    || |f.rest| < f.packetSize.value
    || exists x :: IsSuffix(x, buf) && ResyncOf(x, MIN_SYNC_COUNT).None? && f.rest == Unsynced(x)
  }

  lemma {:induction false} FrameFromRest(base: int, buf: bytes, size: nat, off: nat)
    requires PacketSize(size) && off <= |buf|
    ensures RestShort(FrameFrom(base, buf, size, off), buf)
    decreases |buf|, 0, |buf| - off
  {
    if |buf| - off >= size {
      var next := off + size;
      if buf[off..off + TS_PACKET_SIZE][0] != TS_SYNC_BYTE {
        RelockedRest(base, buf[next..], size);
        var f := Relocked(base, buf[next..], size);
        if |f.rest| >= f.packetSize.value {
          var x :| IsSuffix(x, buf[next..]) && ResyncOf(x, MIN_SYNC_COUNT).None? && f.rest == Unsynced(x);
          SuffixOfCut(buf, next, x);
        }
      } else {
        FrameFromRest(base, buf, size, next);
      }
    }
  }

  lemma {:induction false} RelockedRest(base: int, cut: bytes, size: nat)
    requires PacketSize(size)
    ensures RestShort(Relocked(base, cut, size), cut)
    decreases |cut|, 1, 0
  {
    match ResyncOf(cut, MIN_SYNC_COUNT)
    case None =>
      assert IsSuffix(cut, cut);
    case Some(lock) =>
      ResyncIsFirst(cut, MIN_SYNC_COUNT);
      FrameFromRest(base, cut, lock.packetSize, lock.packetOffset);
  }

  lemma {:induction false} SuffixOfCut(buf: bytes, next: nat, x: bytes)
    requires next <= |buf| && IsSuffix(x, buf[next..])
    ensures IsSuffix(x, buf)
  {
    assert buf[next..][|buf[next..]| - |x|..] == buf[|buf| - |x|..];
  }

  /**
   * After a push that does not throw, less than one packet size is left
   * unless no lock was found in what was left, which is then kept only up
   * to the unsynchronised limit.
   */
  lemma {:induction false} PushFramingRest(base: int, buf: bytes, packetSize: Option<nat>)
    requires packetSize.Some? ==> PacketSize(packetSize.value)
    ensures var f := PushFraming(base, buf, packetSize);
            f.packetSize.None? ==> ResyncOf(buf, MIN_SYNC_COUNT).None? && f.rest == Unsynced(buf)
    ensures var f := PushFraming(base, buf, packetSize);
            f.packetSize.Some? ==> RestShort(f, buf)
  {
    if packetSize.None? {
      match ResyncOf(buf, MIN_SYNC_COUNT)
      case None =>
      case Some(lock) =>
        ResyncIsFirst(buf, MIN_SYNC_COUNT);
        FrameFromRest(base, buf, lock.packetSize, lock.packetOffset);
    } else {
      FrameFromRest(base, buf, packetSize.value, 0);
    }
  }

  /** The loop ends when less than a packet is left, keeping the rest. */
  lemma {:induction false} FrameEnd(base: int, buf: bytes, size: nat, off: nat)
    requires PacketSize(size) && off <= |buf| && |buf| - off < size
    ensures FrameFrom(base, buf, size, off) == Framing([], buf[off..], Some(size))
  {
  }

  /** A packet that starts with the sync byte is handed on before the rest of the loop. */
  lemma {:induction false} FrameSynced(base: int, buf: bytes, size: nat, off: nat)
    requires PacketSize(size) && off + size <= |buf| && buf[off] == TS_SYNC_BYTE
    ensures var g := FrameFrom(base, buf, size, off + size);
            FrameFrom(base, buf, size, off)
            == Framing([Slot(base + off + size, buf[off..off + TS_PACKET_SIZE], buf, size)] + g.slots, g.rest, g.packetSize)
  {
    assert buf[off..off + TS_PACKET_SIZE][0] == buf[off];
  }

  /** A packet without the sync byte is dropped with everything before it, and the loop goes on after a new lock. */
  lemma {:induction false} FrameResynced(base: int, buf: bytes, size: nat, off: nat)
    requires PacketSize(size) && off + size <= |buf| && buf[off] != TS_SYNC_BYTE
    requires ResyncOf(buf[off + size..], MIN_SYNC_COUNT).Some?
    ensures var lock := ResyncOf(buf[off + size..], MIN_SYNC_COUNT).value;
            && PacketSize(lock.packetSize) && lock.packetOffset <= |buf[off + size..]|
            && FrameFrom(base, buf, size, off) == FrameFrom(base, buf[off + size..], lock.packetSize, lock.packetOffset)
  {
    assert buf[off..off + TS_PACKET_SIZE][0] == buf[off];
    ResyncIsFirst(buf[off + size..], MIN_SYNC_COUNT);
  }

  /** A packet without the sync byte and no new lock end the push with the unsynchronised rest. */
  lemma {:induction false} FrameDropped(base: int, buf: bytes, size: nat, off: nat)
    requires PacketSize(size) && off + size <= |buf| && buf[off] != TS_SYNC_BYTE
    requires ResyncOf(buf[off + size..], MIN_SYNC_COUNT).None?
    ensures FrameFrom(base, buf, size, off) == Framing([], Unsynced(buf[off + size..]), Some(size))
  {
    assert buf[off..off + TS_PACKET_SIZE][0] == buf[off];
  }

  lemma {:induction false} SuffixesOfCut(buf: bytes, next: nat, f: Framing)
    requires next <= |buf| && Shaped(f, buf[next..])
    ensures Shaped(f, buf)
  {
    assert forall x: bytes :: IsSuffix(x, buf[next..]) ==> IsSuffix(x, buf) by {
      forall x: bytes | IsSuffix(x, buf[next..])
        ensures IsSuffix(x, buf)
      {
        assert buf[next..][|buf[next..]| - |x|..] == buf[|buf| - |x|..];
      }
    }
  }

  /** The whole of `push` after the block is joined: synchronise first when no packet size is known yet. */
  function PushFraming(base: int, buf: bytes, packetSize: Option<nat>): (r: Framing)
    requires packetSize.Some? ==> PacketSize(packetSize.value)
    ensures r.packetSize.Some? ==> PacketSize(r.packetSize.value)
    ensures packetSize.Some? ==> r.packetSize.Some?
  {
    if packetSize.None? then
      match ResyncOf(buf, MIN_SYNC_COUNT)
      case None => Framing([], Unsynced(buf), None)
      case Some(lock) =>
        ResyncIsFirst(buf, MIN_SYNC_COUNT);
        FrameFrom(base, buf, lock.packetSize, lock.packetOffset)
    else FrameFrom(base, buf, packetSize.value, 0)
  }

  /** Every push hands on whole packets that start with the sync byte and keeps a bounded suffix of its buffer. */
  lemma {:induction false} PushFramingShaped(base: int, buf: bytes, packetSize: Option<nat>)
    requires packetSize.Some? ==> PacketSize(packetSize.value)
    ensures Shaped(PushFraming(base, buf, packetSize), buf)
  {
    if packetSize.None? {
      match ResyncOf(buf, MIN_SYNC_COUNT)
      case None =>
      case Some(lock) =>
        ResyncIsFirst(buf, MIN_SYNC_COUNT);
        FrameFromShaped(base, buf, lock.packetSize, lock.packetOffset);
    } else {
      FrameFromShaped(base, buf, packetSize.value, 0);
    }
  }

  /** The k-th packet from `off` of a buffer cut at stride `size`, with the position after it. */
  function AlignedSlot(base: int, buf: bytes, size: nat, off: nat, k: nat): Slot
    requires StrideIndex(off, size, k) + TS_PACKET_SIZE <= |buf|
  {
    var at := StrideIndex(off, size, k);
    Slot(base + StrideIndex(off, size, k + 1), buf[at..at + TS_PACKET_SIZE], buf, size)
  }

  /** The k-th slot of a framing is the k-th packet of the buffer at stride `size`. */
  predicate AlignedAt(f: Framing, base: int, buf: bytes, size: nat, off: nat, k: nat)
  {
    && k < |f.slots| && StrideIndex(off, size, k) + TS_PACKET_SIZE <= |buf|
    && f.slots[k] == AlignedSlot(base, buf, size, off, k)
  }

  /**
   * A buffer whose `n` packets from `off` all start with the sync byte and
   * whose tail is shorter than a packet is cut into exactly those packets,
   * each reported with the position after it, and the tail is kept.
   */
  lemma {:induction false} AlignedFraming(base: int, buf: bytes, size: nat, off: nat, n: nat)
    requires PacketSize(size)
    requires StrideIndex(off, size, n) <= |buf| < StrideIndex(off, size, n) + size
    requires SyncedAt(buf, off, size, n)
    ensures |FrameFrom(base, buf, size, off).slots| == n
    ensures FrameFrom(base, buf, size, off).rest == buf[StrideIndex(off, size, n)..]
    ensures FrameFrom(base, buf, size, off).packetSize == Some(size)
    ensures forall k :: 0 <= k < n ==> AlignedAt(FrameFrom(base, buf, size, off), base, buf, size, off, k)
    decreases n
  {
    if n == 0 {
      FrameEnd(base, buf, size, off);
    } else {
      SyncedTail(buf, off, size, n);
      var next := off + size;
      AlignedFraming(base, buf, size, next, n - 1);
      FrameSynced(base, buf, size, off);
      AlignedPrepend(base, buf, size, off, next, n, FrameFrom(base, buf, size, next));
    }
  }

  /** The sync bytes after the first packet are those at the next stride. */
  lemma {:induction false} SyncedTail(buf: bytes, off: nat, size: nat, n: nat)
    requires PacketSize(size) && n > 0 && SyncedAt(buf, off, size, n) && StrideIndex(off, size, n) <= |buf|
    ensures off + size <= |buf| && buf[off] == TS_SYNC_BYTE
    ensures SyncedAt(buf, off + size, size, n - 1)
    ensures StrideIndex(off + size, size, n - 1) == StrideIndex(off, size, n)
  {
    assert buf[StrideIndex(off, size, 0)] == TS_SYNC_BYTE;
    StrideShift(off, size, n - 1);
    StrideShift(off, size, 0);
    var next := off + size;
    forall k: nat | k < n - 1
      ensures StrideIndex(next, size, k) < |buf| && buf[StrideIndex(next, size, k)] == TS_SYNC_BYTE
    {
      StrideShift(off, size, k);
      assert StrideIndex(off, size, k + 1) < |buf| && buf[StrideIndex(off, size, k + 1)] == TS_SYNC_BYTE;
    }
  }

  /** The packet at `off` in front of an aligned framing from the next stride makes an aligned framing from `off`. */
  lemma {:induction false} AlignedPrepend(base: int, buf: bytes, size: nat, off: nat, next: nat, n: nat, g: Framing)
    requires PacketSize(size) && n > 0 && next == off + size <= |buf|
    requires StrideIndex(next, size, n - 1) == StrideIndex(off, size, n) <= |buf|
    requires |g.slots| == n - 1 && g.rest == buf[StrideIndex(next, size, n - 1)..]
    requires forall k :: 0 <= k < n - 1 ==> AlignedAt(g, base, buf, size, next, k)
    ensures var f := Framing([Slot(base + off + size, buf[off..off + TS_PACKET_SIZE], buf, size)] + g.slots, g.rest, g.packetSize);
            && |f.slots| == n && f.rest == buf[StrideIndex(off, size, n)..]
            && forall k :: 0 <= k < n ==> AlignedAt(f, base, buf, size, off, k)
  {
    var f := Framing([Slot(base + off + size, buf[off..off + TS_PACKET_SIZE], buf, size)] + g.slots, g.rest, g.packetSize);
    forall k | 0 <= k < n
      ensures AlignedAt(f, base, buf, size, off, k)
    {
      if k > 0 {
        assert AlignedAt(g, base, buf, size, next, k - 1);
      }
      AlignedCons(base, buf, size, off, g, k);
    }
  }

  /** Putting the packet at `off` in front of the slots from the next stride keeps them aligned. */
  lemma {:induction false} AlignedCons(base: int, buf: bytes, size: nat, off: nat, g: Framing, k: nat)
    requires off + TS_PACKET_SIZE <= |buf|
    requires k > 0 ==> AlignedAt(g, base, buf, size, off + size, k - 1)
    ensures AlignedAt(Framing([Slot(base + off + size, buf[off..off + TS_PACKET_SIZE], buf, size)] + g.slots, g.rest, g.packetSize),
                      base, buf, size, off, k)
  {
    var slot := Slot(base + off + size, buf[off..off + TS_PACKET_SIZE], buf, size);
    var f := Framing([slot] + g.slots, g.rest, g.packetSize);
    if k == 0 {
      StrideShift(off, size, 0);
      assert AlignedSlot(base, buf, size, off, 0) == slot;
    } else {
      var j := k - 1;
      assert f.slots[k] == g.slots[j];
      StrideShift(off, size, j);
      StrideShift(off, size, k);
      assert AlignedSlot(base, buf, size, off, k) == AlignedSlot(base, buf, size, off + size, j);
    }
  }

  // ---------------------------------------------------------------------
  // Packet processing

  /** What processing the slots of one push does to the section reader and the listeners. */
  datatype Run = Run(buffers: Buffers, invocations: seq<TSInvocation>, thrown: bool, processed: nat)

  /** What processing a packet sees besides the packet: the listeners, and whether the reader and the section reader still hold their targets. */
  datatype Listening = Listening(events: map<TSEventType, seq<Listener>>, attached: bool, sectionsAttached: bool)

  /**
   * `processPacket` of one packet: a packet its header drops does nothing;
   * otherwise the packet event is dispatched while the reader is not
   * closed, and the packet is pushed to the section reader.
   */
  function ProcessOutcome(l: Listening, decode: Decoder, buffers: Buffers, position: int, packet: bytes): (r: Run)
    requires |packet| == TS_PACKET_SIZE
  {
    match PacketOf(packet)
    case None => Run(buffers, [], false, 1)
    case Some(p) =>
      var e := PushEffect(buffers, p, decode);
      Run(e.buffers,
          Dispatched(l.events, l.attached, Some(TSEvent(Packet, PacketEvent(position, p))))
          + SectionCalls(l.events, l.sectionsAttached, p.pid, e.sections, decode),
          e.thrown, 1)
  }

  /** The processing of one slot: the section buffers before it, the position reported, and the packet. */
  type Stepper = (Buffers, int, bytes) -> Run

  /** The processing of a slot for any listeners. */
  type Processor = Listening -> Stepper

  /**
   * `process` is `processPacket` on every 188-byte packet.  The fact is
   * only drawn where a ProcessOutcome term is already at hand, so that the
   * framing proofs never unfold packet processing.
   */
  ghost predicate Processes(process: Processor, decode: Decoder)
  {
    forall l: Listening, buffers: Buffers, position: int, packet: bytes
      {:trigger ProcessOutcome(l, decode, buffers, position, packet)} ::
      |packet| == TS_PACKET_SIZE ==> process(l)(buffers, position, packet) == ProcessOutcome(l, decode, buffers, position, packet)
  }

  /** The processor of a reader whose section reader decodes with `decode`. */
  function ProcessorOf(decode: Decoder): (r: Processor)
    ensures Processes(r, decode)
  {
    (l: Listening) => (buffers: Buffers, position: int, packet: bytes) =>
      if |packet| == TS_PACKET_SIZE then ProcessOutcome(l, decode, buffers, position, packet)
      else Run(buffers, [], false, 1)
  }

  /** The slots processed in order; a throw ends the run at the slot that threw. */
  function SlotsRun(buffers: Buffers, slots: seq<Slot>, step: Stepper): (r: Run)
    ensures r.processed <= |slots|
    ensures !r.thrown ==> r.processed == |slots|
    ensures r.thrown ==> r.processed >= 1
    decreases |slots|
  {
    if slots == [] then Run(buffers, [], false, 0)
    else
      var o := step(buffers, slots[0].position, slots[0].packet);
      if o.thrown then Run(o.buffers, o.invocations, true, 1)
      else
        var r := SlotsRun(o.buffers, slots[1..], step);
        Run(r.buffers, o.invocations + r.invocations, r.thrown, 1 + r.processed)
  }

  /**
   * The buffer and packet size a push keeps: what the framing leaves, or,
   * when processing a packet threw, the buffer and packet size the loop
   * had reached at that packet.
   */
  function Kept(f: Framing, run: Run): (bytes, Option<nat>)
  {
    if run.thrown && 1 <= run.processed <= |f.slots|
    then (f.slots[run.processed - 1].buffer, Some(f.slots[run.processed - 1].packetSize))
    else (f.rest, f.packetSize)
  }

  /**
   * A push that framed `f` and processed its slots with `step`, from section
   * buffers `buffers` and calls `calls`, ends with section buffers
   * `buffers'`, calls `calls'`, `thrown`, and keeps `buffer` and
   * `packetSize`.
   */
  ghost predicate Ran(f: Framing, step: Stepper, buffers: Buffers, calls: seq<TSInvocation>,
                      buffers': Buffers, calls': seq<TSInvocation>, thrown: bool, buffer: bytes, packetSize: Option<nat>)
  {
    var run := SlotsRun(buffers, f.slots, step);
    && buffers' == run.buffers && thrown == run.thrown
    && calls' == calls + run.invocations
    && (buffer, packetSize) == Kept(f, run)
  }

  /** Processing keeps every section buffer's received length equal to the bytes it holds. */
  lemma {:induction false} SlotsRunAccounted(buffers: Buffers, slots: seq<Slot>, l: Listening, process: Processor, decode: Decoder)
    requires Accounted(buffers) && Processes(process, decode)
    requires forall i :: 0 <= i < |slots| ==> |slots[i].packet| == TS_PACKET_SIZE
    ensures Accounted(SlotsRun(buffers, slots, process(l)).buffers)
    decreases |slots|
  {
    if slots != [] {
      var p := PacketOf(slots[0].packet);
      if p.Some? {
        PushAccounted(buffers, p.value, decode);
      }
      assert process(l)(buffers, slots[0].position, slots[0].packet)
             == ProcessOutcome(l, decode, buffers, slots[0].position, slots[0].packet);
      var o := process(l)(buffers, slots[0].position, slots[0].packet);
      if !o.thrown {
        SlotsRunAccounted(o.buffers, slots[1..], l, process, decode);
      }
    }
  }

  // ---------------------------------------------------------------------
  // The reader

  class TSReader {
    /** `buffer`: the bytes not yet cut into packets. */
    var buffer: bytes
    /** Unknown until the first synchronisation; `reset` keeps it. */
    var packetSize: Option<nat>
    const eventTarget: TSTarget
    /** Whether the target is still set: `close` deletes it. */
    var attached: bool
    const sectionReader: SectionReader
    /** `bytes_`: how many bytes were pushed since the last reset. */
    var bytesRead: nat
    /** The bytes pushed since the last reset. */
    ghost var stream: bytes
    /** `processPacket` as a function of the listeners, the section buffers, the position and the packet. */
    ghost const process: Processor

    ghost predicate Valid()
      reads this, sectionReader, eventTarget
    {
      && sectionReader.eventTarget == eventTarget
      && eventTarget.Valid()
      && bytesRead == |stream|
      && IsSuffix(buffer, stream)
      && (packetSize.Some? ==> PacketSize(packetSize.value))
      && Accounted(sectionReader.buffer)
      && Processes(process, sectionReader.decode)
    }

    constructor ()
      ensures Valid() && fresh(sectionReader) && fresh(eventTarget)
      ensures buffer == [] && packetSize.None? && bytesRead == 0 && stream == [] && attached
      ensures sectionReader.buffer == map[] && sectionReader.attached && sectionReader.decode == SectionOf
      ensures eventTarget.events == map[] && eventTarget.invocations == []
      ensures process == ProcessorOf(SectionOf)
    {
      var target := new CustomEventTarget<TSEventType, TSEventPayload>();
      var sections := new SectionReader(target, SectionOf);
      buffer := [];
      packetSize := None;
      eventTarget := target;
      attached := true;
      sectionReader := sections;
      process := ProcessorOf(SectionOf);
      bytesRead := 0;
      stream := [];
    }

    /** The `bytes` getter. */
    function Bytes(): (n: nat)
      requires Valid()
      reads this, sectionReader, eventTarget
      ensures n == |stream| && |buffer| <= n
    {
      bytesRead
    }

    /** `addEventListener`: nothing once the reader is closed. */
    method AddEventListener(eventType: TSEventType, callback: Listener)
      requires Valid()
      modifies eventTarget
      ensures Valid()
      ensures attached ==>
                eventTarget.events == old(eventTarget.events)[eventType := SetAdd(old(eventTarget.Listeners(eventType)), callback)]
      ensures !attached ==> eventTarget.events == old(eventTarget.events)
      ensures eventTarget.invocations == old(eventTarget.invocations)
    {
      if attached {
        eventTarget.AddEventListener(eventType, callback);
      }
    }

    /** `removeEventListener`: nothing once the reader is closed. */
    method RemoveEventListener(eventType: TSEventType, callback: Listener)
      requires Valid()
      modifies eventTarget
      ensures Valid()
      ensures attached && eventType in old(eventTarget.events) ==>
                eventTarget.events == old(eventTarget.events)[eventType := SetDelete(old(eventTarget.events)[eventType], callback)]
      ensures !attached || eventType !in old(eventTarget.events) ==> eventTarget.events == old(eventTarget.events)
      ensures eventTarget.invocations == old(eventTarget.invocations)
    {
      if attached {
        eventTarget.RemoveEventListener(eventType, callback);
      }
    }

    /** `close`: the reader's own target is deleted; the section reader keeps its own. */
    method Close()
      modifies this
      ensures !attached
      ensures buffer == old(buffer) && packetSize == old(packetSize) && bytesRead == old(bytesRead) && stream == old(stream)
    {
      attached := false;
    }

    /** `reset`: the buffer and the byte count start again and the section reader is reset; the packet size is kept. */
    method Reset()
      requires Valid()
      modifies this, sectionReader
      ensures Valid()
      ensures buffer == [] && bytesRead == 0 && stream == [] && packetSize == old(packetSize) && attached == old(attached)
      ensures sectionReader.buffer == map[] && !sectionReader.attached
    {
      buffer := [];
      sectionReader.Reset();
      bytesRead := 0;
      stream := [];
    }

    /** `processPacket`. */
    method ProcessPacket(offset: int, packet: bytes) returns (thrown: bool)
      requires Valid() && |packet| == TS_PACKET_SIZE
      modifies sectionReader, eventTarget
      ensures Valid()
      ensures var o := process(Listening(old(eventTarget.events), attached, sectionReader.attached))(old(sectionReader.buffer), offset, packet);
              && sectionReader.buffer == o.buffers && thrown == o.thrown
              && eventTarget.invocations == old(eventTarget.invocations) + o.invocations
      ensures eventTarget.events == old(eventTarget.events) && sectionReader.attached == old(sectionReader.attached)
    {
      ghost var l := Listening(eventTarget.events, attached, sectionReader.attached);
      ghost var o := ProcessOutcome(l, sectionReader.decode, sectionReader.buffer, offset, packet);
      assert process(l)(sectionReader.buffer, offset, packet) == o;
      var p := PacketOf(packet);
      if p.None? {
        return false;
      }
      var tsPacket := p.value;
      ghost var e := PushEffect(sectionReader.buffer, tsPacket, sectionReader.decode);
      ghost var start := eventTarget.invocations;
      if attached {
        eventTarget.DispatchEvent(Packet, PacketEvent(offset, tsPacket));
      }
      ghost var mid := eventTarget.invocations;
      assert mid == start + Dispatched(l.events, l.attached, Some(TSEvent(Packet, PacketEvent(offset, tsPacket))));
      PushAccounted(sectionReader.buffer, tsPacket, sectionReader.decode);
      thrown := sectionReader.Push(tsPacket);
      assert sectionReader.buffer == e.buffers && thrown == e.thrown;
      ConcatAssoc(start, mid[|start|..], eventTarget.invocations[|mid|..]);
    }

    /** `push`. */
    method Push(block: bytes) returns (thrown: bool)
      requires Valid()
      modifies this, sectionReader, eventTarget
      ensures Valid()
      ensures stream == old(stream) + block && attached == old(attached) && sectionReader.attached == old(sectionReader.attached)
      ensures eventTarget.events == old(eventTarget.events)
      ensures Ran(PushFraming(old(bytesRead) - |old(buffer)|, old(buffer) + block, old(packetSize)),
                  process(Listening(old(eventTarget.events), attached, sectionReader.attached)),
                  old(sectionReader.buffer), old(eventTarget.invocations),
                  sectionReader.buffer, eventTarget.invocations, thrown, buffer, packetSize)
    {
      var offset := bytesRead - |buffer|;
      bytesRead := bytesRead + |block|;
      stream := stream + block;
      buffer := buffer + block;
      thrown := Frame(offset);
    }

    /**
     * `push` once the block is joined: synchronise when no packet size is
     * known yet, then run the loop.
     */
    method Frame(base: int) returns (thrown: bool)
      requires Valid()
      modifies this, sectionReader, eventTarget
      ensures Valid()
      ensures stream == old(stream) && bytesRead == old(bytesRead) && attached == old(attached)
      ensures sectionReader.attached == old(sectionReader.attached) && eventTarget.events == old(eventTarget.events)
      ensures Ran(PushFraming(base, old(buffer), old(packetSize)),
                  process(Listening(old(eventTarget.events), attached, sectionReader.attached)),
                  old(sectionReader.buffer), old(eventTarget.invocations),
                  sectionReader.buffer, eventTarget.invocations, thrown, buffer, packetSize)
    {
      thrown := false;
      var size: nat;
      var packetOffset: nat := 0;
      if packetSize.None? {
        var result := Resync(buffer, MIN_SYNC_COUNT);
        if result.None? {
          if |buffer| > UNSYNCED_LIMIT {
            buffer := [];
          }
          return;
        }
        ResyncIsFirst(buffer, MIN_SYNC_COUNT);
        size := result.value.packetSize;
        packetOffset := result.value.packetOffset;
        packetSize := Some(size);
      } else {
        size := packetSize.value;
      }
      assert PushFraming(base, buffer, old(packetSize)) == FrameFrom(base, buffer, size, packetOffset);
      thrown := Cut(base, size, packetOffset);
    }

    /**
     * The loop of `push`, lines 100-120.  The buffer and the packet size
     * are cut in locals and stored when the loop stops; nothing the loop
     * calls reads them.
     */
    method Cut(base: int, size: nat, off: nat) returns (thrown: bool)
      requires Valid() && PacketSize(size) && off <= |buffer| && packetSize == Some(size)
      modifies this, sectionReader, eventTarget
      ensures Valid()
      ensures stream == old(stream) && bytesRead == old(bytesRead) && attached == old(attached)
      ensures sectionReader.attached == old(sectionReader.attached) && eventTarget.events == old(eventTarget.events)
      ensures Ran(FrameFrom(base, old(buffer), size, off),
                  process(Listening(old(eventTarget.events), attached, sectionReader.attached)),
                  old(sectionReader.buffer), old(eventTarget.invocations),
                  sectionReader.buffer, eventTarget.invocations, thrown, buffer, packetSize)
    {
      thrown := false;
      ghost var f := FrameFrom(base, buffer, size, off);
      ghost var step := process(Listening(eventTarget.events, attached, sectionReader.attached));
      ghost var target := SlotsRun(sectionReader.buffer, f.slots, step);
      ghost var start := eventTarget.invocations;
      ghost var done: nat := 0;
      ResumesFromStart(base, buffer, size, off, sectionReader.buffer, start, step);
      var buf, size', off' := buffer, size, off;
      while |buf| - off' >= size'
        invariant Valid() && sectionReader.attached == old(sectionReader.attached) && eventTarget.events == old(eventTarget.events)
        invariant buffer == old(buffer) && packetSize == old(packetSize) && stream == old(stream) && bytesRead == old(bytesRead) && attached == old(attached)
        invariant IsSuffix(buf, stream) && !thrown && step == process(Listening(eventTarget.events, attached, sectionReader.attached))
        invariant Resumes(base, buf, size', off', sectionReader.buffer, eventTarget.invocations, f, step, target, start, done)
        decreases |buf|, |buf| - off'
      {
        var stop;
        stop, thrown, buf, size', off', done := NextPacket(base, buf, size', off', f, step, target, start, done);
        if stop {
          buffer, packetSize := buf, Some(size');
          return;
        }
      }
      ResumesEnd(base, buf, size', off', sectionReader.buffer, eventTarget.invocations, f, step, target, start, done);
      SuffixDrop(buf, off', stream);
      buffer, packetSize := buf[off'..], Some(size');
    }

    /**
     * One turn of the loop of `push` at `off` in `buf`: a packet without the
     * sync byte drops `buf` up to the next packet and synchronises again,
     * which ends the push when no lock is found; a packet with it is
     * processed, which ends the push when it throws.  When the push ends,
     * `buf'` and `size'` are what the reader keeps.
     */
    method NextPacket(base: int, buf: bytes, size: nat, off: nat, ghost f: Framing, ghost step: Stepper, ghost target: Run,
                      ghost start: seq<TSInvocation>, ghost done: nat)
      returns (stop: bool, thrown: bool, buf': bytes, size': nat, off': nat, ghost done': nat)
      requires Valid() && IsSuffix(buf, stream) && |buf| - off >= size
      requires step == process(Listening(eventTarget.events, attached, sectionReader.attached))
      requires Resumes(base, buf, size, off, sectionReader.buffer, eventTarget.invocations, f, step, target, start, done)
      modifies sectionReader, eventTarget
      ensures Valid() && sectionReader.attached == old(sectionReader.attached) && eventTarget.events == old(eventTarget.events)
      ensures IsSuffix(buf', stream) && PacketSize(size')
      ensures stop ==> Finished(f, target, start, thrown, sectionReader.buffer, eventTarget.invocations, buf', size')
      ensures !stop ==>
                && !thrown
                && Resumes(base, buf', size', off', sectionReader.buffer, eventTarget.invocations, f, step, target, start, done')
                && (|buf'| < |buf| || (|buf'| == |buf| && |buf'| - off' < |buf| - off))
    {
      if buf[off] != TS_SYNC_BYTE {
        thrown, done' := false, done;
        stop, buf', size', off' := SkipPacket(base, buf, size, off, sectionReader.buffer, eventTarget.invocations,
                                              stream, f, step, target, start, done);
      } else {
        thrown := TakePacket(base, buf, size, off, f, step, target, start, done);
        stop, buf', size', off', done' := thrown, buf, size, off + size, done + 1;
      }
    }

    /** A packet with the sync byte is processed; the push ends when that throws. */
    method TakePacket(base: int, buf: bytes, size: nat, off: nat, ghost f: Framing, ghost step: Stepper, ghost target: Run,
                      ghost start: seq<TSInvocation>, ghost done: nat)
      returns (thrown: bool)
      requires Valid() && PacketSize(size) && off + size <= |buf| && buf[off] == TS_SYNC_BYTE
      requires step == process(Listening(eventTarget.events, attached, sectionReader.attached))
      requires Resumes(base, buf, size, off, sectionReader.buffer, eventTarget.invocations, f, step, target, start, done)
      modifies sectionReader, eventTarget
      ensures Valid() && sectionReader.attached == old(sectionReader.attached) && eventTarget.events == old(eventTarget.events)
      ensures thrown ==> Finished(f, target, start, true, sectionReader.buffer, eventTarget.invocations, buf, size)
      ensures !thrown ==> Resumes(base, buf, size, off + size, sectionReader.buffer, eventTarget.invocations, f, step, target, start, done + 1)
    {
      var next := off + size;
      ghost var buffers, calls := sectionReader.buffer, eventTarget.invocations;
      thrown := ProcessPacket(base + next, buf[off..off + TS_PACKET_SIZE]);
      if thrown {
        ThrowFinishes(base, buf, size, off, next, buffers, calls, f, step, target, start, done,
                      sectionReader.buffer, eventTarget.invocations);
      } else {
        ResumesAfterPacket(base, buf, size, off, next, buffers, calls, f, step, target, start, done,
                           sectionReader.buffer, eventTarget.invocations);
      }
    }
  }

  /**
   * A packet without the sync byte: the buffer is cut after it and
   * synchronised again; without a new lock the push ends, keeping at most
   * the unsynchronised limit.
   */
  method SkipPacket(base: int, buf: bytes, size: nat, off: nat, ghost buffers: Buffers, ghost calls: seq<TSInvocation>,
                    ghost stream: bytes, ghost f: Framing, ghost step: Stepper, ghost target: Run,
                    ghost start: seq<TSInvocation>, ghost done: nat)
    returns (stop: bool, buf': bytes, size': nat, off': nat)
    requires IsSuffix(buf, stream) && PacketSize(size) && |buf| - off >= size && buf[off] != TS_SYNC_BYTE
    requires Resumes(base, buf, size, off, buffers, calls, f, step, target, start, done)
    ensures IsSuffix(buf', stream) && PacketSize(size') && |buf'| < |buf|
    ensures stop ==> Finished(f, target, start, false, buffers, calls, buf', size')
    ensures !stop ==> Resumes(base, buf', size', off', buffers, calls, f, step, target, start, done)
  {
    var next := off + size;
    SuffixDrop(buf, next, stream);
    buf', size', off' := buf[next..], size, 0;
    var result := Resync(buf', MIN_SYNC_COUNT);
    if result.None? {
      ResumesDropped(base, buf, size, off, next, buffers, calls, f, step, target, start, done);
      if |buf'| > UNSYNCED_LIMIT {
        buf' := [];
      }
      return true, buf', size', off';
    }
    ResumesResynced(base, buf, size, off, next, buffers, calls, f, step, target, start, done);
    stop, size', off' := false, result.value.packetSize, result.value.packetOffset;
  }

  /** How a push ends: the section buffers, the calls, and the buffer and packet size kept. */
  ghost predicate Finished(f: Framing, target: Run, start: seq<TSInvocation>, thrown: bool,
                           buffers: Buffers, calls: seq<TSInvocation>, buf: bytes, size: nat)
  {
    && buffers == target.buffers && thrown == target.thrown
    && calls == start + target.invocations
    && (!thrown ==> buf == f.rest && Some(size) == f.packetSize)
    && (thrown ==> 1 <= target.processed <= |f.slots|
                   && buf == f.slots[target.processed - 1].buffer
                   && size == f.slots[target.processed - 1].packetSize)
  }

  lemma {:induction false} SuffixDrop(x: bytes, k: nat, z: bytes)
    requires IsSuffix(x, z) && k <= |x|
    ensures IsSuffix(x[k..], z)
  {
    assert z[|z| - |x|..][k..] == z[|z| - (|x| - k)..];
  }

  /**
   * Part way through the loop at `off` in `buf`, with the section buffers
   * and listener calls so far: the slots still to come are the rest of the
   * whole framing `f` after `done` of them, and processing them ends where
   * processing all of `f` from the start ends.
   */
  ghost predicate Resumes(
    base: int, buf: bytes, size: nat, off: nat, buffers: Buffers, calls: seq<TSInvocation>,
    f: Framing, step: Stepper, target: Run, start: seq<TSInvocation>, done: nat)
  {
    && PacketSize(size) && off <= |buf|
    && Continues(FrameFrom(base, buf, size, off), buffers, calls, f, step, target, start, done)
  }

  /** The framing `g` still to come is the rest of `f` after `done` slots, and processing it completes `target`. */
  ghost predicate Continues(
    g: Framing, buffers: Buffers, calls: seq<TSInvocation>,
    f: Framing, step: Stepper, target: Run, start: seq<TSInvocation>, done: nat)
  {
    && done + |g.slots| == |f.slots| && g.slots == f.slots[done..]
    && g.rest == f.rest && g.packetSize == f.packetSize
    && Completes(SlotsRun(buffers, g.slots, step), calls, target, start, done)
  }

  /** The run `r` of the slots still to come, after `done` slots and the calls `calls`, ends as `target`. */
  ghost predicate Completes(r: Run, calls: seq<TSInvocation>, target: Run, start: seq<TSInvocation>, done: nat)
  {
    && r.buffers == target.buffers && r.thrown == target.thrown && target.processed == done + r.processed
    && calls + r.invocations == start + target.invocations
  }

  lemma {:induction false} ResumesFromStart(base: int, buf: bytes, size: nat, off: nat, buffers: Buffers, calls: seq<TSInvocation>, step: Stepper)
    requires PacketSize(size) && off <= |buf|
    ensures var f := FrameFrom(base, buf, size, off);
            Resumes(base, buf, size, off, buffers, calls, f, step, SlotsRun(buffers, f.slots, step), calls, 0)
  {
    var f := FrameFrom(base, buf, size, off);
    assert f.slots[0..] == f.slots;
  }

  /** Less than a packet left: every slot was processed without a throw. */
  lemma {:induction false} ResumesEnd(
    base: int, buf: bytes, size: nat, off: nat, buffers: Buffers, calls: seq<TSInvocation>,
    f: Framing, step: Stepper, target: Run, start: seq<TSInvocation>, done: nat)
    requires Resumes(base, buf, size, off, buffers, calls, f, step, target, start, done)
    requires |buf| - off < size
    ensures f.rest == buf[off..] && f.packetSize == Some(size)
    ensures target.buffers == buffers && !target.thrown && calls == start + target.invocations
  {
    FrameEnd(base, buf, size, off);
  }

  /** A packet without the sync byte and no new lock: the push ends with every slot processed. */
  lemma {:induction false} ResumesDropped(
    base: int, buf: bytes, size: nat, off: nat, next: nat, buffers: Buffers, calls: seq<TSInvocation>,
    f: Framing, step: Stepper, target: Run, start: seq<TSInvocation>, done: nat)
    requires Resumes(base, buf, size, off, buffers, calls, f, step, target, start, done)
    requires next == off + size <= |buf| && buf[off] != TS_SYNC_BYTE && ResyncOf(buf[next..], MIN_SYNC_COUNT).None?
    ensures f.rest == Unsynced(buf[next..]) && f.packetSize == Some(size)
    ensures target.buffers == buffers && !target.thrown && calls == start + target.invocations
  {
    FrameDropped(base, buf, size, off);
  }

  /** A packet without the sync byte and a new lock: the loop resumes in the cut buffer. */
  lemma {:induction false} ResumesResynced(
    base: int, buf: bytes, size: nat, off: nat, next: nat, buffers: Buffers, calls: seq<TSInvocation>,
    f: Framing, step: Stepper, target: Run, start: seq<TSInvocation>, done: nat)
    requires Resumes(base, buf, size, off, buffers, calls, f, step, target, start, done)
    requires next == off + size <= |buf| && buf[off] != TS_SYNC_BYTE && ResyncOf(buf[next..], MIN_SYNC_COUNT).Some?
    ensures var lock := ResyncOf(buf[next..], MIN_SYNC_COUNT).value;
            Resumes(base, buf[next..], lock.packetSize, lock.packetOffset, buffers, calls, f, step, target, start, done)
  {
    FrameResynced(base, buf, size, off);
  }

  /** A packet with the sync byte is processed and throws, leaving `buffers'` and the calls `calls'`: the push ends. */
  lemma {:induction false} ThrowFinishes(
    base: int, buf: bytes, size: nat, off: nat, next: nat, buffers: Buffers, calls: seq<TSInvocation>,
    f: Framing, step: Stepper, target: Run, start: seq<TSInvocation>, done: nat,
    buffers': Buffers, calls': seq<TSInvocation>)
    requires Resumes(base, buf, size, off, buffers, calls, f, step, target, start, done)
    requires next == off + size <= |buf| && buf[off] == TS_SYNC_BYTE
    requires var o := step(buffers, base + next, buf[off..off + TS_PACKET_SIZE]);
             buffers' == o.buffers && o.thrown && calls' == calls + o.invocations
    ensures Finished(f, target, start, true, buffers', calls', buf, size)
  {
    var slot := Slot(base + next, buf[off..off + TS_PACKET_SIZE], buf, size);
    FrameSynced(base, buf, size, off);
    var g := FrameFrom(base, buf, size, off);
    assert g.slots[0] == slot;
    var o := step(buffers, base + next, slot.packet);
    assert SlotsRun(buffers, g.slots, step) == Run(o.buffers, o.invocations, true, 1);
    assert f.slots[done] == slot;
  }

  /** A packet with the sync byte is processed without a throw: the loop resumes after it. */
  lemma {:induction false} ResumesPacket(
    base: int, buf: bytes, size: nat, off: nat, next: nat, buffers: Buffers, calls: seq<TSInvocation>,
    f: Framing, step: Stepper, target: Run, start: seq<TSInvocation>, done: nat)
    requires Resumes(base, buf, size, off, buffers, calls, f, step, target, start, done)
    requires next == off + size <= |buf| && buf[off] == TS_SYNC_BYTE
    requires !step(buffers, base + next, buf[off..off + TS_PACKET_SIZE]).thrown
    ensures var o := step(buffers, base + next, buf[off..off + TS_PACKET_SIZE]);
            Resumes(base, buf, size, next, o.buffers, calls + o.invocations, f, step, target, start, done + 1)
  {
    var slot := Slot(base + next, buf[off..off + TS_PACKET_SIZE], buf, size);
    FrameSynced(base, buf, size, off);
    var g := FrameFrom(base, buf, size, off);
    var h := FrameFrom(base, buf, size, next);
    assert g.slots == [slot] + h.slots;
    assert g.slots[1..] == h.slots;
    var o := step(buffers, base + next, slot.packet);
    assert f.slots[done + 1..] == f.slots[done..][1..];
    ConcatAssoc(calls, o.invocations, SlotsRun(o.buffers, h.slots, step).invocations);
  }

  /** `ResumesPacket` for the section buffers and calls the processing left. */
  lemma {:induction false} ResumesAfterPacket(
    base: int, buf: bytes, size: nat, off: nat, next: nat, buffers: Buffers, calls: seq<TSInvocation>,
    f: Framing, step: Stepper, target: Run, start: seq<TSInvocation>, done: nat,
    buffers': Buffers, calls': seq<TSInvocation>)
    requires Resumes(base, buf, size, off, buffers, calls, f, step, target, start, done)
    requires next == off + size <= |buf| && buf[off] == TS_SYNC_BYTE
    requires var o := step(buffers, base + next, buf[off..off + TS_PACKET_SIZE]);
             buffers' == o.buffers && !o.thrown && calls' == calls + o.invocations
    ensures Resumes(base, buf, size, next, buffers', calls', f, step, target, start, done + 1)
  {
    ResumesPacket(base, buf, size, off, next, buffers, calls, f, step, target, start, done);
  }
}
