// The section reassembler of src/ts/section-reader.ts: the payloads of the
// transport stream packets of one PID are collected from a packet with the
// payload unit start indicator until the announced section length is
// reached, the collected section is decoded, and the table it holds is
// dispatched when it is of the kind its PID carries.
module TsSectionReader {
  import opened Js
  import opened Decoding
  import opened Utils
  import opened EventTarget
  import opened TsSi
  import opened TsEvents

  const PID_PAT := 0x0000
  const PID_CAT := 0x0001
  const PID_NIT := 0x0010
  const PID_SDT := 0x0011
  const PID_EIT := 0x0012
  const PID_M_EIT := 0x0026
  const PID_L_EIT := 0x0027
  const PID_TOT := 0x0014
  const PID_SDTT := 0x0023
  const PID_SDTT_UPPER := 0x0028
  const PID_BIT := 0x0024
  const PID_CDT := 0x0029

  // ---------------------------------------------------------------------
  // Section start

  /**
   * `getSectionLength`: the 12-bit section length of the section that starts
   * after the pointer field, or nothing for a payload too short to hold it,
   * a PES start code, or reserved bits that are not both set.
   */
  function SectionLengthOf(payload: bytes): (r: Option<nat>)
    ensures r.Some? <==>
              && 3 <= |payload|
              && !(payload[0] == 0 && payload[1] == 0 && payload[2] == 1)
              && payload[0] + 3 < |payload|
              && payload[payload[0] + 2] / 0x10 % 4 == 3
    ensures r.Some? ==> r.value < 0x1000
  {
    if |payload| < 3 then None
    else if payload[0] == 0x00 && payload[1] == 0x00 && payload[2] == 0x01 then None
    else
      var pointer: nat := (payload[0] as int) + 1;
      if |payload| <= pointer + 2 then None
      else if payload[pointer + 1] / 0x10 % 4 != 3 then None
      else Some(U16(payload, pointer + 1) % 0x1000)
  }

  /** The second byte of a section header: the two indicator bits, the reserved bits, and the top of the length. */
  ghost function LengthHigh(indicators: nat, sectionLength: nat): (r: byte)
    requires indicators < 4 && sectionLength < 0x1000
  {
    indicators * 0x40 + 0x30 + sectionLength / 0x100
  }

  /**
   * A payload made of a pointer field, then a section header with its
   * reserved bits set: the section length is read back, whatever the
   * pointer field holds.
   */
  lemma {:induction false} SectionLengthOfStart(
    pointerField: bytes, tableId: byte, indicators: nat, sectionLength: nat, rest: bytes)
    requires |pointerField| < 0x100 && indicators < 4 && sectionLength < 0x1000
    ensures var payload := [|pointerField| as byte] + pointerField
                           + [tableId, LengthHigh(indicators, sectionLength), (sectionLength % 0x100) as byte] + rest;
            SectionLengthOf(payload) == Some(sectionLength)
  {
    var h := LengthHigh(indicators, sectionLength);
    var payload := [|pointerField| as byte] + pointerField + [tableId, h, (sectionLength % 0x100) as byte] + rest;
    var p := |pointerField|;
    assert payload[p + 1] == tableId && payload[p + 2] == h && payload[p + 3] == sectionLength % 0x100;
    assert h / 0x10 == indicators * 4 + 3;
    assert U16(payload, p + 2) == h * 0x100 + sectionLength % 0x100;
    assert U16(payload, p + 2) == indicators * 0x4000 + 0x3000 + sectionLength;
  }

  /** A payload that starts with the PES start code 00 00 01 opens no section. */
  lemma {:induction false} PESStartIgnored(payload: bytes)
    requires 3 <= |payload| && payload[..3] == [0, 0, 1]
    ensures SectionLengthOf(payload).None?
  {
    assert payload[0] == payload[..3][0] && payload[1] == payload[..3][1] && payload[2] == payload[..3][2];
  }

  /**
   * `payload.subarray(1, payload[0] + 1)`: the bytes of the pointer field,
   * cut at the end of the payload.  An empty payload has no first byte, its
   * pointer is NaN, and the range is empty.
   */
  function PointerBytes(payload: bytes): (r: bytes)
    ensures |payload| == 0 ==> r == []
    ensures |payload| > 0 ==> r == payload[1..if (payload[0] as int) + 1 <= |payload| then (payload[0] as int) + 1 else |payload|]
  {
    if |payload| == 0 then [] else Js.Slice(payload, 1, (payload[0] as int) + 1)
  }

  // ---------------------------------------------------------------------
  // Dispatch

  /** The PIDs `processSection` names in its switch; every other PID takes the default branch. */
  predicate FixedPid(pid: nat)
  {
    pid == PID_PAT || pid == PID_NIT || pid == PID_EIT || pid == PID_M_EIT || pid == PID_L_EIT
    || pid == PID_SDT || pid == PID_CDT || pid == PID_TOT || pid == PID_BIT
  }

  /** The event a fixed PID stands for. */
  function PidEvent(pid: nat): (r: Option<TSEventType>)
    ensures r.Some? <==> FixedPid(pid)
  {
    if pid == PID_PAT then Some(Pat)
    else if pid == PID_NIT then Some(Nit)
    else if pid == PID_EIT || pid == PID_M_EIT || pid == PID_L_EIT then Some(Eit)
    else if pid == PID_SDT then Some(Sdt)
    else if pid == PID_CDT then Some(Cdt)
    else if pid == PID_TOT then Some(Tot)
    else if pid == PID_BIT then Some(Bit)
    else None
  }

  /** The event a section kind is dispatched as; the CAT has none. */
  function KindEvent(s: Section): (r: Option<TSEventType>)
    ensures r.None? <==> s.CAT?
    ensures r.Some? ==> r.value != Packet
  {
    if s.PAT? then Some(Pat)
    else if s.CAT? then None
    else if s.PMT? then Some(Pmt)
    else if s.NIT? then Some(Nit)
    else if s.BIT? then Some(Bit)
    else if s.SDT? then Some(Sdt)
    else if s.EIT? then Some(Eit)
    else if s.TOT? then Some(Tot)
    else if s.CDT? then Some(Cdt)
    else Some(Dsmcc)
  }

  /**
   * `processSection`'s choice of event.  A decoded section is dispatched
   * exactly when its kind is the one its PID stands for, or, on any other
   * PID, when it is a PMT or a DSM-CC section; the listeners receive the PID
   * and the section.
   */
  function SectionEventOf(pid: nat, section: Decoded<Section>): (r: Option<TSEvent>)
    ensures r.Some? <==>
              && section.Ok? && KindEvent(section.value).Some?
              && (FixedPid(pid) ==> KindEvent(section.value) == PidEvent(pid))
              && (!FixedPid(pid) ==> KindEvent(section.value).value in {Pmt, Dsmcc})
    ensures r.Some? ==> r.value == TSEvent(KindEvent(section.value).value, SIEvent(pid, section.value))
  {
    if !section.Ok? || section.value.CAT? then None
    else
      var s := section.value;
      var e := TSEvent(KindEvent(s).value, SIEvent(pid, s));
      if pid == PID_PAT then (if s.PAT? then Some(e) else None)
      else if pid == PID_NIT then (if s.NIT? then Some(e) else None)
      else if pid == PID_EIT || pid == PID_M_EIT || pid == PID_L_EIT then (if s.EIT? then Some(e) else None)
      else if pid == PID_SDT then (if s.SDT? then Some(e) else None)
      else if pid == PID_CDT then (if s.CDT? then Some(e) else None)
      else if pid == PID_TOT then (if s.TOT? then Some(e) else None)
      else if pid == PID_BIT then (if s.BIT? then Some(e) else None)
      else if s.PMT? then Some(e)
      else if s.DDB? || s.DII? || s.StreamDescriptorSection? then Some(e)
      else None
  }

  /**
   * A PMT or DSM-CC section is dispatched only from a PID outside the fixed
   * ones, and a PAT, NIT, EIT, SDT, CDT, TOT or BIT only from its own PID.
   */
  lemma {:induction false} EventsOnTheirPids(pid: nat, section: Decoded<Section>)
    requires SectionEventOf(pid, section).Some?
    ensures var t := SectionEventOf(pid, section).value.eventType;
            && (t == Pmt ==> !FixedPid(pid) && section.value.PMT?)
            && (t == Dsmcc ==> !FixedPid(pid) && (section.value.DII? || section.value.DDB? || section.value.StreamDescriptorSection?))
            && (t == Pat ==> pid == PID_PAT && section.value.PAT?)
            && (t == Nit ==> pid == PID_NIT && section.value.NIT?)
            && (t == Eit ==> (pid == PID_EIT || pid == PID_M_EIT || pid == PID_L_EIT) && section.value.EIT?)
            && (t == Sdt ==> pid == PID_SDT && section.value.SDT?)
            && (t == Cdt ==> pid == PID_CDT && section.value.CDT?)
            && (t == Tot ==> pid == PID_TOT && section.value.TOT?)
            && (t == Bit ==> pid == PID_BIT && section.value.BIT?)
            && t != Packet
  {
  }

  /** The listener calls `processSection` makes for each of a list of collected sections. */
  function SectionCalls(events: map<TSEventType, seq<Listener>>, attached: bool, pid: nat, sections: seq<bytes>, decode: Decoder): (r: seq<TSInvocation>)
    ensures !attached ==> r == []
    decreases |sections|
  {
    if sections == [] then []
    else
      SectionCalls(events, attached, pid, sections[..|sections| - 1], decode)
      + Dispatched(events, attached, SectionEventOf(pid, decode(sections[|sections| - 1])))
  }

  // ---------------------------------------------------------------------
  // Reassembly

  /** The payloads collected for one PID: the counter of the last packet, the announced length, the bytes so far. */
  datatype SectionBuffer = SectionBuffer(continuityCounter: nat, sectionLength: nat, receivedLength: nat, payloads: seq<bytes>)

  type Buffers = map<nat, SectionBuffer>

  /** The section decoder the reader is built with (`readSection`). */
  type Decoder = bytes -> Decoded<Section>

  /** Every buffer's received length is the total length of its payloads. */
  predicate Accounted(buffers: Buffers)
  {
    forall pid :: pid in buffers ==> buffers[pid].receivedLength == TotalLength(buffers[pid].payloads)
  }

  /** Every buffer still waits for more bytes than it holds. */
  predicate Pending(buffers: Buffers)
  {
    forall pid :: pid in buffers ==> buffers[pid].receivedLength < buffers[pid].sectionLength + 3
  }

  /** What one push does: the buffers after it, the sections handed to `processSection`, and whether decoding threw. */
  datatype Effect = Effect(buffers: Buffers, sections: seq<bytes>, thrown: bool)

  /**
   * Lines 158-161 (and 125-128): a buffer that has received its whole
   * section is decoded and its PID deleted; a decoder that throws leaves
   * the buffers as they are.
   */
  function Completed(buffers: Buffers, pid: nat, b: SectionBuffer, decode: Decoder): (r: Effect)
  {
    if b.receivedLength < b.sectionLength + 3 then Effect(buffers, [], false)
    else
      var section := Flatten(b.payloads);
      if decode(section).Thrown? then Effect(buffers, [section], true)
      else Effect(buffers - {pid}, [section], false)
  }

  function Appended(b: SectionBuffer, cc: nat, payload: bytes): (r: SectionBuffer)
  {
    SectionBuffer(cc, b.sectionLength, b.receivedLength + |payload|, b.payloads + [payload])
  }

  /**
   * A packet that starts a payload unit: the PID's buffer is taken out and
   * completed with the pointer field's bytes, then a new buffer is opened
   * with the bytes after the pointer field when they start a section.
   */
  function StartEffect(buffers: Buffers, packet: TSPacket, decode: Decoder): (r: Effect)
    requires packet.payloadUnitStartIndicator
  {
    var pid := packet.pid;
    var rest := buffers - {pid};
    var closed :=
      if pid in buffers then Completed(rest, pid, Appended(buffers[pid], buffers[pid].continuityCounter, PointerBytes(packet.payload)), decode)
      else Effect(rest, [], false);
    if closed.thrown then closed
    else
      match SectionLengthOf(packet.payload)
      case None => closed
      case Some(sectionLength) =>
        var payload := packet.payload[(packet.payload[0] as int) + 1..];
        var b := SectionBuffer(packet.continuityCounter, sectionLength, |payload|, [payload]);
        var c := Completed(closed.buffers[pid := b], pid, b, decode);
        Effect(c.buffers, closed.sections + c.sections, c.thrown)
  }

  /**
   * A packet that continues a payload unit: dropped without a buffer or with
   * the counter of the previous packet; a counter that does not follow it
   * drops the buffer; otherwise the payload is appended.
   */
  function ContinueEffect(buffers: Buffers, packet: TSPacket, decode: Decoder): (r: Effect)
  {
    var pid := packet.pid;
    if pid !in buffers then Effect(buffers, [], false)
    else
      var b := buffers[pid];
      if b.continuityCounter == packet.continuityCounter then Effect(buffers, [], false)
      else if (b.continuityCounter + 1) % 16 != packet.continuityCounter then Effect(buffers - {pid}, [], false)
      else
        var b' := Appended(b, packet.continuityCounter, packet.payload);
        Completed(buffers[pid := b'], pid, b', decode)
  }

  /** `push` of one packet. */
  function PushEffect(buffers: Buffers, packet: TSPacket, decode: Decoder): (r: Effect)
  {
    if packet.payloadUnitStartIndicator then StartEffect(buffers, packet, decode) else ContinueEffect(buffers, packet, decode)
  }

  // ---------------------------------------------------------------------
  // Properties of push

  /** Two buffer maps that agree on every PID but one. */
  ghost predicate SameOutside(a: Buffers, b: Buffers, pid: nat)
  {
    forall q :: q != pid ==> (q in a <==> q in b) && (q in a ==> a[q] == b[q])
  }

  lemma {:induction false} CompletedOutside(buffers: Buffers, pid: nat, b: SectionBuffer, decode: Decoder)
    ensures var r := Completed(buffers, pid, b, decode);
            r.buffers == buffers || r.buffers == buffers - {pid}
  {
  }

  lemma {:induction false} StartOutside(buffers: Buffers, packet: TSPacket, decode: Decoder)
    requires packet.payloadUnitStartIndicator
    ensures SameOutside(buffers, StartEffect(buffers, packet, decode).buffers, packet.pid)
  {
    var pid := packet.pid;
    var rest := buffers - {pid};
    var closed := Effect(rest, [], false);
    if pid in buffers {
      var b := Appended(buffers[pid], buffers[pid].continuityCounter, PointerBytes(packet.payload));
      CompletedOutside(rest, pid, b, decode);
      closed := Completed(rest, pid, b, decode);
    }
    assert SameOutside(buffers, closed.buffers, pid);
    if !closed.thrown && SectionLengthOf(packet.payload).Some? {
      var payload := packet.payload[(packet.payload[0] as int) + 1..];
      var b := SectionBuffer(packet.continuityCounter, SectionLengthOf(packet.payload).value, |payload|, [payload]);
      CompletedOutside(closed.buffers[pid := b], pid, b, decode);
    }
  }

  lemma {:induction false} ContinueOutside(buffers: Buffers, packet: TSPacket, decode: Decoder)
    ensures SameOutside(buffers, ContinueEffect(buffers, packet, decode).buffers, packet.pid)
  {
    var pid := packet.pid;
    if pid in buffers {
      var b := Appended(buffers[pid], packet.continuityCounter, packet.payload);
      CompletedOutside(buffers[pid := b], pid, b, decode);
    }
  }

  /** A push touches no buffer but its own PID's. */
  lemma {:induction false} PushKeepsOtherPids(buffers: Buffers, packet: TSPacket, decode: Decoder)
    ensures var r := PushEffect(buffers, packet, decode);
            forall pid :: pid != packet.pid ==>
              (pid in r.buffers <==> pid in buffers) && (pid in buffers ==> r.buffers[pid] == buffers[pid])
  {
    if packet.payloadUnitStartIndicator {
      StartOutside(buffers, packet, decode);
    } else {
      ContinueOutside(buffers, packet, decode);
    }
  }

  lemma {:induction false} TotalLengthAppend(payloads: seq<bytes>, p: bytes)
    ensures TotalLength(payloads + [p]) == TotalLength(payloads) + |p|
  {
    assert (payloads + [p])[..|payloads|] == payloads;
  }

  lemma {:induction false} CompletedAccounted(buffers: Buffers, pid: nat, b: SectionBuffer, decode: Decoder)
    requires Accounted(buffers) && b.receivedLength == TotalLength(b.payloads)
    requires pid in buffers ==> buffers[pid] == b
    ensures var r := Completed(buffers, pid, b, decode);
            && Accounted(r.buffers)
            && (forall i :: 0 <= i < |r.sections| ==> |r.sections[i]| >= b.sectionLength + 3)
  {
    FlattenLength(b.payloads);
  }

  /**
   * A push keeps every buffer's received length equal to the bytes it
   * holds, and every section it hands on holds at least the three header
   * bytes and the announced length.
   */
  lemma {:induction false} PushAccounted(buffers: Buffers, packet: TSPacket, decode: Decoder)
    requires Accounted(buffers)
    ensures var r := PushEffect(buffers, packet, decode);
            && Accounted(r.buffers)
            && forall i :: 0 <= i < |r.sections| ==> |r.sections[i]| >= 3
  {
    if packet.payloadUnitStartIndicator {
      StartAccounted(buffers, packet, decode);
    } else {
      ContinueAccounted(buffers, packet, decode);
    }
  }

  lemma {:induction false} StartAccounted(buffers: Buffers, packet: TSPacket, decode: Decoder)
    requires Accounted(buffers) && packet.payloadUnitStartIndicator
    ensures var r := StartEffect(buffers, packet, decode);
            && Accounted(r.buffers)
            && forall i :: 0 <= i < |r.sections| ==> |r.sections[i]| >= 3
  {
    var pid := packet.pid;
    var closed := ClosedAccounted(buffers, packet, decode);
    if !closed.thrown && SectionLengthOf(packet.payload).Some? {
      var payload := packet.payload[(packet.payload[0] as int) + 1..];
      var b := SectionBuffer(packet.continuityCounter, SectionLengthOf(packet.payload).value, |payload|, [payload]);
      var one: seq<bytes> := [payload];
      assert one[..0] == [];
      var c := Completed(closed.buffers[pid := b], pid, b, decode);
      AccountedUpdate(closed.buffers, pid, b);
      CompletedAccounted(closed.buffers[pid := b], pid, b, decode);
      assert StartEffect(buffers, packet, decode) == Effect(c.buffers, closed.sections + c.sections, c.thrown);
      var all := closed.sections + c.sections;
      assert forall i :: 0 <= i < |all| ==> |all[i]| >= 3 by {
        forall i | 0 <= i < |all|
          ensures |all[i]| >= 3
        {
          if i < |closed.sections| {
            assert all[i] == closed.sections[i];
          } else {
            assert all[i] == c.sections[i - |closed.sections|];
          }
        }
      }
    }
  }

  /** The first half of a starting packet: the PID's old buffer, completed with the pointer field's bytes. */
  lemma {:induction false} ClosedAccounted(buffers: Buffers, packet: TSPacket, decode: Decoder) returns (closed: Effect)
    requires Accounted(buffers) && packet.payloadUnitStartIndicator
    ensures closed == (if packet.pid in buffers
                       then Completed(buffers - {packet.pid}, packet.pid,
                                      Appended(buffers[packet.pid], buffers[packet.pid].continuityCounter, PointerBytes(packet.payload)), decode)
                       else Effect(buffers - {packet.pid}, [], false))
    ensures Accounted(closed.buffers) && packet.pid !in closed.buffers
    ensures forall i :: 0 <= i < |closed.sections| ==> |closed.sections[i]| >= 3
  {
    var pid := packet.pid;
    var rest := buffers - {pid};
    assert Accounted(rest);
    closed := Effect(rest, [], false);
    if pid in buffers {
      var b := Appended(buffers[pid], buffers[pid].continuityCounter, PointerBytes(packet.payload));
      TotalLengthAppend(buffers[pid].payloads, PointerBytes(packet.payload));
      CompletedAccounted(rest, pid, b, decode);
      CompletedOutside(rest, pid, b, decode);
      closed := Completed(rest, pid, b, decode);
    }
  }

  lemma {:induction false} AccountedUpdate(buffers: Buffers, pid: nat, b: SectionBuffer)
    requires Accounted(buffers) && b.receivedLength == TotalLength(b.payloads)
    ensures Accounted(buffers[pid := b])
  {
  }

  lemma {:induction false} ContinueAccounted(buffers: Buffers, packet: TSPacket, decode: Decoder)
    requires Accounted(buffers)
    ensures var r := ContinueEffect(buffers, packet, decode);
            && Accounted(r.buffers)
            && forall i :: 0 <= i < |r.sections| ==> |r.sections[i]| >= 3
  {
    var pid := packet.pid;
    if pid in buffers {
      var b := buffers[pid];
      if b.continuityCounter == packet.continuityCounter {
      } else if (b.continuityCounter + 1) % 16 != packet.continuityCounter {
        assert ContinueEffect(buffers, packet, decode).buffers == buffers - {pid};
      } else {
        var b' := Appended(b, packet.continuityCounter, packet.payload);
        TotalLengthAppend(b.payloads, packet.payload);
        AccountedUpdate(buffers, pid, b');
        CompletedAccounted(buffers[pid := b'], pid, b', decode);
        assert ContinueEffect(buffers, packet, decode) == Completed(buffers[pid := b'], pid, b', decode);
      }
    }
  }

  /** A push that does not throw leaves only buffers still waiting for bytes. */
  lemma {:induction false} PushPending(buffers: Buffers, packet: TSPacket, decode: Decoder)
    requires Pending(buffers) && !PushEffect(buffers, packet, decode).thrown
    ensures Pending(PushEffect(buffers, packet, decode).buffers)
  {
  }

  /** A push hands on at most two sections (the one it closes and the one it opens), one unless it starts a unit. */
  lemma {:induction false} PushSectionCount(buffers: Buffers, packet: TSPacket, decode: Decoder)
    ensures var r := PushEffect(buffers, packet, decode);
            && |r.sections| <= 2
            && (!packet.payloadUnitStartIndicator ==> |r.sections| <= 1)
            && (r.thrown <==> |r.sections| > 0 && decode(r.sections[|r.sections| - 1]).Thrown?)
            && (forall i :: 0 <= i < |r.sections| - 1 ==> !decode(r.sections[i]).Thrown?)
  {
  }

  /** A packet that repeats the buffer's continuity counter is taken for a duplicate and ignored. */
  lemma {:induction false} DuplicateIgnored(buffers: Buffers, packet: TSPacket, decode: Decoder)
    requires !packet.payloadUnitStartIndicator && packet.pid in buffers
    requires buffers[packet.pid].continuityCounter == packet.continuityCounter
    ensures PushEffect(buffers, packet, decode) == Effect(buffers, [], false)
  {
  }

  /** A continuity counter that neither repeats nor follows the buffer's drops the PID's buffer and nothing more. */
  lemma {:induction false} DiscontinuityDrops(buffers: Buffers, packet: TSPacket, decode: Decoder)
    requires !packet.payloadUnitStartIndicator && packet.pid in buffers
    requires var cc := buffers[packet.pid].continuityCounter;
             cc != packet.continuityCounter && (cc + 1) % 16 != packet.continuityCounter
    ensures PushEffect(buffers, packet, decode) == Effect(buffers - {packet.pid}, [], false)
  {
  }

  /** A continuation packet for a PID without a buffer is ignored. */
  lemma {:induction false} StrayContinuationIgnored(buffers: Buffers, packet: TSPacket, decode: Decoder)
    requires !packet.payloadUnitStartIndicator && packet.pid !in buffers
    ensures PushEffect(buffers, packet, decode) == Effect(buffers, [], false)
  {
  }

  lemma {:induction false} FlattenOne(x: bytes)
    ensures Flatten([x]) == x
  {
    assert [x][..0] == [];
  }

  lemma {:induction false} FlattenTwo(x: bytes, y: bytes)
    ensures Flatten([x, y]) == x + y
  {
    assert [x, y][..1] == [x];
    FlattenOne(x);
  }

  /**
   * A section that fits in the packet that starts it is handed on at once,
   * as the bytes after the pointer field, and leaves no buffer behind.
   */
  lemma {:induction false} SinglePacketSection(buffers: Buffers, packet: TSPacket, decode: Decoder)
    requires packet.payloadUnitStartIndicator && packet.pid !in buffers
    requires SectionLengthOf(packet.payload).Some?
    requires var section := packet.payload[(packet.payload[0] as int) + 1..];
             |section| >= SectionLengthOf(packet.payload).value + 3 && !decode(section).Thrown?
    ensures var r := PushEffect(buffers, packet, decode);
            && r.sections == [packet.payload[(packet.payload[0] as int) + 1..]]
            && r.buffers == buffers && !r.thrown
  {
    FlattenOne(packet.payload[(packet.payload[0] as int) + 1..]);
    assert buffers - {packet.pid} == buffers;
  }

  /**
   * A section split over a starting packet and the packet with the next
   * continuity counter is handed on as the two payloads joined, once the
   * second brings the announced length.
   */
  lemma {:induction false} TwoPacketSection(buffers: Buffers, first: TSPacket, second: TSPacket, decode: Decoder)
    requires first.payloadUnitStartIndicator && first.pid !in buffers && SectionLengthOf(first.payload).Some?
    requires var head := first.payload[(first.payload[0] as int) + 1..];
             |head| < SectionLengthOf(first.payload).value + 3
    requires !second.payloadUnitStartIndicator && second.pid == first.pid
    requires second.continuityCounter == (first.continuityCounter + 1) % 16
    requires var head := first.payload[(first.payload[0] as int) + 1..];
             |head| + |second.payload| >= SectionLengthOf(first.payload).value + 3
             && !decode(head + second.payload).Thrown?
    ensures var r1 := PushEffect(buffers, first, decode);
            && r1.sections == [] && !r1.thrown
            && var r2 := PushEffect(r1.buffers, second, decode);
            && r2.sections == [first.payload[(first.payload[0] as int) + 1..] + second.payload]
            && r2.buffers == buffers && !r2.thrown
  {
    var pid := first.pid;
    var head := first.payload[(first.payload[0] as int) + 1..];
    var b := SectionBuffer(first.continuityCounter, SectionLengthOf(first.payload).value, |head|, [head]);
    assert buffers - {pid} == buffers;
    var r1 := PushEffect(buffers, first, decode);
    assert r1 == Effect(buffers[pid := b], [], false);
    assert first.continuityCounter < 16 ==> first.continuityCounter != second.continuityCounter;
    var b' := Appended(b, second.continuityCounter, second.payload);
    assert [head] + [second.payload] == [head, second.payload];
    FlattenTwo(head, second.payload);
    assert buffers[pid := b'] - {pid} == buffers;
  }

  // ---------------------------------------------------------------------
  // The reader

  lemma {:induction false} SectionCallsAppend(
    events: map<TSEventType, seq<Listener>>, attached: bool, pid: nat, xs: seq<bytes>, ys: seq<bytes>, decode: Decoder)
    ensures SectionCalls(events, attached, pid, xs + ys, decode)
            == SectionCalls(events, attached, pid, xs, decode) + SectionCalls(events, attached, pid, ys, decode)
    decreases |ys|
  {
    if ys == [] {
      assert xs + ys == xs;
    } else {
      var n := |ys|;
      assert (xs + ys)[..|xs + ys| - 1] == xs + ys[..n - 1];
      SectionCallsAppend(events, attached, pid, xs, ys[..n - 1], decode);
      ConcatAssoc(SectionCalls(events, attached, pid, xs, decode), SectionCalls(events, attached, pid, ys[..n - 1], decode),
                  Dispatched(events, attached, SectionEventOf(pid, decode(ys[n - 1]))));
    }
  }

  lemma {:induction false} SectionCallsOne(
    events: map<TSEventType, seq<Listener>>, attached: bool, pid: nat, section: bytes, decode: Decoder)
    ensures SectionCalls(events, attached, pid, [section], decode) == Dispatched(events, attached, SectionEventOf(pid, decode(section)))
  {
    var one: seq<bytes> := [section];
    assert one[..0] == [];
  }

  class SectionReader {
    /** `buffer`: the payloads collected so far, by PID. */
    var buffer: Buffers
    const eventTarget: TSTarget
    /** Whether the target is still set: `reset` deletes it for good. */
    var attached: bool
    /** `readSection`, the decoder of a collected section. */
    const decode: Decoder

    constructor (eventTarget: TSTarget, decode: Decoder)
      ensures this.eventTarget == eventTarget && this.decode == decode && attached && buffer == map[]
    {
      this.eventTarget := eventTarget;
      this.decode := decode;
      attached := true;
      buffer := map[];
    }

    /** `reset`: the buffers are cleared and the target is deleted, so nothing is dispatched afterwards. */
    method Reset()
      modifies this
      ensures buffer == map[] && !attached
    {
      buffer := map[];
      attached := false;
    }

    /** `processSection`: decode the section and dispatch the event its PID and kind make. */
    method ProcessSection(pid: nat, payload: bytes) returns (thrown: bool)
      modifies eventTarget
      ensures thrown <==> decode(payload).Thrown?
      ensures eventTarget.events == old(eventTarget.events)
      ensures eventTarget.invocations
              == old(eventTarget.invocations) + Dispatched(old(eventTarget.events), attached, SectionEventOf(pid, decode(payload)))
    {
      var section := decode(payload);
      thrown := section.Thrown?;
      var e := SectionEventOf(pid, section);
      if attached && e.Some? {
        eventTarget.DispatchEvent(e.value.eventType, e.value.payload);
      }
    }

    /** `push`: the buffers after it are those of PushEffect, and each section it hands on is dispatched in turn. */
    method Push(packet: TSPacket) returns (thrown: bool)
      modifies this, eventTarget
      ensures var e := PushEffect(old(buffer), packet, decode);
              && buffer == e.buffers && thrown == e.thrown
              && eventTarget.invocations
                 == old(eventTarget.invocations) + SectionCalls(old(eventTarget.events), attached, packet.pid, e.sections, decode)
      ensures eventTarget.events == old(eventTarget.events) && attached == old(attached)
    {
      if packet.payloadUnitStartIndicator {
        thrown := PushStart(packet);
      } else {
        thrown := PushContinue(packet);
      }
    }

    /** The first branch of `push`, for a packet that starts a payload unit. */
    method PushStart(packet: TSPacket) returns (thrown: bool)
      requires packet.payloadUnitStartIndicator
      modifies this, eventTarget
      ensures var e := StartEffect(old(buffer), packet, decode);
              && buffer == e.buffers && thrown == e.thrown
              && eventTarget.invocations
                 == old(eventTarget.invocations) + SectionCalls(old(eventTarget.events), attached, packet.pid, e.sections, decode)
      ensures eventTarget.events == old(eventTarget.events) && attached == old(attached)
    {
      var pid := packet.pid;
      var found := pid in buffer;
      var previous := if found then buffer[pid] else SectionBuffer(0, 0, 0, []);
      var sectionLength := SectionLengthOf(packet.payload);
      buffer := buffer - {pid};
      ghost var rest, events, start := buffer, eventTarget.events, eventTarget.invocations;
      ghost var closed := Effect(rest, [], false);
      thrown := false;
      if found {
        var b := Appended(previous, previous.continuityCounter, PointerBytes(packet.payload));
        closed := Completed(rest, pid, b, decode);
        thrown := Complete(pid, b);
        if thrown {
          return;
        }
      }
      assert eventTarget.invocations == start + SectionCalls(events, attached, pid, closed.sections, decode);
      if sectionLength.None? {
        return;
      }
      ghost var mid := eventTarget.invocations;
      var payload := packet.payload[(packet.payload[0] as int) + 1..];
      var b := SectionBuffer(packet.continuityCounter, sectionLength.value, |payload|, [payload]);
      buffer := buffer[pid := b];
      thrown := Complete(pid, b);
      SectionCallsAppend(events, attached, pid, closed.sections, Completed(closed.buffers[pid := b], pid, b, decode).sections, decode);
      ConcatAssoc(start, SectionCalls(events, attached, pid, closed.sections, decode),
                  SectionCalls(events, attached, pid, Completed(closed.buffers[pid := b], pid, b, decode).sections, decode));
    }

    /** The second branch of `push`, for a packet that continues a payload unit. */
    method PushContinue(packet: TSPacket) returns (thrown: bool)
      modifies this, eventTarget
      ensures var e := ContinueEffect(old(buffer), packet, decode);
              && buffer == e.buffers && thrown == e.thrown
              && eventTarget.invocations
                 == old(eventTarget.invocations) + SectionCalls(old(eventTarget.events), attached, packet.pid, e.sections, decode)
      ensures eventTarget.events == old(eventTarget.events) && attached == old(attached)
    {
      thrown := false;
      var pid := packet.pid;
      if pid !in buffer {
        return;
      }
      var b := buffer[pid];
      if b.continuityCounter == packet.continuityCounter {
        return;
      }
      if (b.continuityCounter + 1) % 16 != packet.continuityCounter {
        buffer := buffer - {pid};
        return;
      }
      b := Appended(b, packet.continuityCounter, packet.payload);
      buffer := buffer[pid := b];
      thrown := Complete(pid, b);
    }

    /** Lines 158-161: decode a buffer that has received its whole section, then delete its PID. */
    method Complete(pid: nat, b: SectionBuffer) returns (thrown: bool)
      modifies this, eventTarget
      ensures var e := Completed(old(buffer), pid, b, decode);
              && buffer == e.buffers && thrown == e.thrown
              && eventTarget.invocations
                 == old(eventTarget.invocations) + SectionCalls(old(eventTarget.events), attached, pid, e.sections, decode)
      ensures eventTarget.events == old(eventTarget.events) && attached == old(attached)
    {
      thrown := false;
      if b.receivedLength < b.sectionLength + 3 {
        return;
      }
      var section := ConcatBuffers(b.payloads);
      thrown := ProcessSection(pid, section);
      SectionCallsOne(old(eventTarget.events), attached, pid, section, decode);
      if thrown {
        return;
      }
      buffer := buffer - {pid};
    }
  }
}
