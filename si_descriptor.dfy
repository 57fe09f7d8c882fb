// The descriptors shared by the TLV-SI and MMT-SI tables (src/si-descriptor.ts):
// network name, system management, service list, emergency information and
// satellite delivery system.
module SiDescriptor {
  import opened Js
  import opened Decoding
  import opened Utils

  datatype NetworkNameDescriptor = NetworkNameDescriptor(name: bytes)

  datatype SystemManagementDescriptor = SystemManagementDescriptor(
    broadcastingFlag: nat,
    broadcastingIdentifier: nat,
    additionalBroadcastingIdentification: nat,
    additionalIdentificationInfo: bytes)

  datatype ServiceListEntry = ServiceListEntry(serviceId: nat, serviceType: nat)

  datatype EmergencyInformationService = EmergencyInformationService(
    serviceId: nat,
    startEndFlag: bool,
    signalLevel: bool,
    areaCodes: seq<nat>)

  datatype SatelliteDeliverySystemDescriptor = SatelliteDeliverySystemDescriptor(
    frequency: nat,
    orbitalPosition: nat,
    westEastFlag: bool,
    polarization: nat,
    modulation: nat,
    symbolRate: int,
    fecInner: nat)

  /** `readNetworkNameDescriptor`: the name is the whole body. */
  function NetworkNameOf(buffer: bytes): (r: NetworkNameDescriptor)
    ensures |r.name| == |buffer| && forall i :: 0 <= i < |buffer| ==> r.name[i] == buffer[i]
  {
    NetworkNameDescriptor(Js.Slice(buffer, 0, |buffer|))
  }

  /**
   * `readSystemManagementDescriptor`: a two-bit flag and a six-bit
   * identifier share byte 0, byte 1 is the additional identification, and
   * the rest is kept.
   */
  function SystemManagementOf(buffer: bytes): (r: Option<SystemManagementDescriptor>)
  {
    if |buffer| < 2 then None
    else Some(SystemManagementDescriptor(buffer[0] / 0x40, buffer[0] % 0x40, buffer[1], buffer[2..]))
  }

  ghost function EncodeSystemManagement(d: SystemManagementDescriptor): (r: bytes)
    requires d.broadcastingFlag < 4 && d.broadcastingIdentifier < 0x40 && d.additionalBroadcastingIdentification < 0x100
    ensures |r| == 2 + |d.additionalIdentificationInfo|
  {
    [(d.broadcastingFlag * 0x40 + d.broadcastingIdentifier) as byte, d.additionalBroadcastingIdentification as byte]
    + d.additionalIdentificationInfo
  }

  /** The reader needs two bytes, and reads back every descriptor it is given. */
  lemma {:induction false} SystemManagementRoundTrip(d: SystemManagementDescriptor)
    requires d.broadcastingFlag < 4 && d.broadcastingIdentifier < 0x40 && d.additionalBroadcastingIdentification < 0x100
    ensures SystemManagementOf(EncodeSystemManagement(d)) == Some(d)
    ensures forall b: bytes :: SystemManagementOf(b).None? <==> |b| < 2
  {
    assert EncodeSystemManagement(d)[2..] == d.additionalIdentificationInfo;
  }

  /**
   * `readServiceListDescriptor`'s loop from index i: a 16-bit id and a type
   * byte per three bytes; trailing bytes that do not make a triple are ignored.
   */
  function ServiceEntries(b: bytes, i: nat): (r: seq<ServiceListEntry>)
    decreases |b| - i
  {
    if i + 3 > |b| then [] else [ServiceListEntry(U16(b, i), b[i + 2])] + ServiceEntries(b, i + 3)
  }

  /** The list has one entry per whole triple, entry k from bytes 3k..3k+2. */
  lemma {:induction false} ServiceEntriesSpec(b: bytes, i: nat)
    requires i <= |b|
    ensures |ServiceEntries(b, i)| == (|b| - i) / 3
    ensures forall k :: 0 <= k < |ServiceEntries(b, i)| ==>
              ServiceEntries(b, i)[k] == ServiceListEntry(U16(b, i + 3 * k), b[i + 3 * k + 2])
    decreases |b| - i
  {
    if i + 3 <= |b| {
      ServiceEntriesSpec(b, i + 3);
      var r := ServiceEntries(b, i);
      assert r == [ServiceListEntry(U16(b, i), b[i + 2])] + ServiceEntries(b, i + 3);
      forall k | 0 < k < |r|
        ensures r[k] == ServiceListEntry(U16(b, i + 3 * k), b[i + 3 * k + 2])
      {
        assert r[k] == ServiceEntries(b, i + 3)[k - 1];
        assert i + 3 + 3 * (k - 1) == i + 3 * k;
      }
    }
  }

  method ReadServiceListDescriptor(buffer: bytes) returns (services: seq<ServiceListEntry>)
    ensures services == ServiceEntries(buffer, 0)
  {
    services := [];
    var i := 0;
    while i + 3 <= |buffer|
      invariant services + ServiceEntries(buffer, i) == ServiceEntries(buffer, 0)
      decreases |buffer| - i
    {
      var serviceId := (buffer[i] as int) * 0x100 + buffer[i + 1];
      var serviceType := buffer[i + 2];
      services := services + [ServiceListEntry(serviceId, serviceType as nat)];
      i := i + 3;
    }
  }

  /** The n area codes at p, each the top 12 bits of a 16-bit word. */
  function AreaCodes(b: bytes, p: int, n: nat): (r: seq<nat>)
    requires p >= 0 && p + 2 * n <= |b|
    ensures |r| == n
  {
    if n == 0 then [] else AreaCodes(b, p, n - 1) + [U16(b, p + 2 * (n - 1)) / 0x10]
  }

  /** Code i is word i shifted right by four, so it fits in 12 bits. */
  lemma {:induction false} AreaCodesSpec(b: bytes, p: int, n: nat)
    requires p >= 0 && p + 2 * n <= |b|
    ensures forall i :: 0 <= i < n ==> AreaCodes(b, p, n)[i] == U16(b, p + 2 * i) / 0x10 < 0x1000
  {
    if n > 0 {
      AreaCodesSpec(b, p, n - 1);
      assert forall i :: 0 <= i < n - 1 ==> AreaCodes(b, p, n)[i] == AreaCodes(b, p, n - 1)[i];
    }
  }

  /**
   * One service of `readEmergencyInformationDescriptor`'s loop at o: a
   * service id, a flag byte and a count, then that many area codes; None when
   * the four header bytes are not left or the code list does not fit.
   */
  function EmergencyServiceAt(b: bytes, o: nat): (r: Option<Field<EmergencyInformationService>>)
    ensures r.Some? ==> o + 4 <= r.value.next <= |b|
  {
    if |b| < 4 + o then None
    else
      var h := b[o + 2];
      var n := b[o + 3] as nat;
      var p := o + 4;
      if |b| < 2 * n + p then None
      else Some(Field(EmergencyInformationService(U16(b, o), h / 0x80 == 1, h / 0x40 % 2 == 1, AreaCodes(b, p, n)),
                      p + 2 * n))
  }

  /** The loop from o: services until one does not fit. */
  function EmergencyServices(b: bytes, o: nat): (r: seq<EmergencyInformationService>)
    decreases |b| - o
  {
    match EmergencyServiceAt(b, o)
    case None => []
    case Some(f) => [f.value] + EmergencyServices(b, f.next)
  }

  /** Every service takes at least its four header bytes. */
  lemma {:induction false} EmergencyServicesBound(b: bytes, o: nat)
    ensures 4 * |EmergencyServices(b, o)| <= |b| - o || EmergencyServices(b, o) == []
    decreases |b| - o
  {
    match EmergencyServiceAt(b, o)
    case None =>
    case Some(f) => EmergencyServicesBound(b, f.next);
  }

  method ReadEmergencyInformationDescriptor(buffer: bytes) returns (services: seq<EmergencyInformationService>)
    ensures services == EmergencyServices(buffer, 0)
  {
    var reader := new BinaryReader(buffer, 0);
    services := ReadEmergencyServices(reader);
  }

  method ReadEmergencyServices(reader: BinaryReader) returns (services: seq<EmergencyInformationService>)
    requires reader.offset >= 0
    modifies reader
    ensures services == EmergencyServices(reader.buffer, old(reader.offset))
  {
    ghost var buffer, o := reader.buffer, reader.offset;
    services := [];
    while reader.CanRead(2 + 1 + 1)
      invariant reader.buffer == buffer && reader.offset >= 0
      invariant services + EmergencyServices(buffer, reader.offset) == EmergencyServices(buffer, o)
      decreases |buffer| - reader.offset
    {
      ghost var start := reader.offset;
      var service := ReadEmergencyService(reader);
      if service.None? {
        break;
      }
      assert EmergencyServices(buffer, start) == [service.value] + EmergencyServices(buffer, reader.offset);
      services := services + [service.value];
    }
  }

  /** One pass of the loop body, with four bytes known to be left. */
  method ReadEmergencyService(reader: BinaryReader) returns (r: Option<EmergencyInformationService>)
    requires reader.offset >= 0 && reader.CanRead(4)
    modifies reader
    ensures var f := EmergencyServiceAt(reader.buffer, old(reader.offset));
      r.None? == f.None? && (r.Some? ==> r.value == f.value.value && reader.offset == f.value.next)
  {
    var serviceId := reader.ReadUint16();
    var h := reader.ReadUint8();
    var startEndFlag := h / 0x80 == 1;
    var signalLevel := h / 0x40 % 2 == 1;
    var areaCodeLength := reader.ReadUint8();
    if !reader.CanRead(2 * areaCodeLength) {
      return None;
    }
    var areaCodes := ReadAreaCodes(reader, areaCodeLength);
    r := Some(EmergencyInformationService(serviceId, startEndFlag, signalLevel, areaCodes));
  }

  /** The inner `for` loop: n codes, each `readUint16() >> 4`. */
  method ReadAreaCodes(reader: BinaryReader, n: nat) returns (codes: seq<nat>)
    requires reader.offset >= 0 && reader.CanRead(2 * n)
    modifies reader
    ensures reader.offset == old(reader.offset) + 2 * n
    ensures codes == AreaCodes(reader.buffer, old(reader.offset), n)
  {
    ghost var o := reader.offset;
    codes := [];
    var i := 0;
    while i < n
      invariant 0 <= i <= n && reader.offset == o + 2 * i
      invariant codes == AreaCodes(reader.buffer, o, i)
    {
      var code := reader.ReadUint16();
      codes := codes + [code / 0x10];
      i := i + 1;
    }
  }

  /**
   * `readSatelliteDeliverySystemDescriptor`: 11 bytes at least.  Symbol rate
   * and FEC share the word at offset 7; the symbol rate is the signed shift
   * `>> 4` of that word.
   */
  function SatelliteDeliverySystemOf(buffer: bytes): (r: Option<SatelliteDeliverySystemDescriptor>)
    ensures r.None? <==> |buffer| < 11
    ensures r.Some? ==> r.value.fecInner == U32(buffer, 7) % 0x10 && r.value.polarization < 4 && r.value.modulation < 0x20
  {
    if |buffer| < 4 + 2 + 1 + 4 then None
    else
      var w := U32(buffer, 7);
      Some(SatelliteDeliverySystemDescriptor(
        U32(buffer, 0), U16(buffer, 4), buffer[6] / 0x80 == 1, buffer[6] / 0x20 % 4, buffer[6] % 0x20,
        ToInt32(w) / 0x10, w % 0x10))
  }

  /** `w >> 4` on a 32-bit word: negative exactly when the top bit is set, and the low 28 bits are `w >>> 4`. */
  lemma {:induction false} SignedShiftRight4(w: int)
    requires 0 <= w < 0x1_0000_0000
    ensures ToInt32(w) / 0x10 < 0 <==> w >= 0x8000_0000
    ensures ToInt32(w) / 0x10 % 0x1000_0000 == w / 0x10
  {
    var q, r := w / 0x10, w % 0x10;
    assert w == q * 0x10 + r;
    if w >= 0x8000_0000 {
      assert ToInt32(w) == (q - 0x1000_0000) * 0x10 + r;
      DivExact(q - 0x1000_0000, r, 0x10);
      DivExact(-1, q, 0x1000_0000);
    } else {
      DivExact(q, r, 0x10);
      DivExact(0, q, 0x1000_0000);
    }
  }

  /** The symbol rate is negative exactly when the word's top bit is set; its low 28 bits are the word's top 28. */
  lemma {:induction false} SatelliteSymbolRate(buffer: bytes)
    requires |buffer| >= 11
    ensures SatelliteDeliverySystemOf(buffer).value.symbolRate < 0 <==> U32(buffer, 7) >= 0x8000_0000
    ensures SatelliteDeliverySystemOf(buffer).value.symbolRate % 0x1000_0000 == U32(buffer, 7) / 0x10
  {
    SignedShiftRight4(U32(buffer, 7));
  }
}
