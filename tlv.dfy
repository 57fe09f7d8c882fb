// The IPv6 and UDP header readers of src/tlv.ts: each advances the caller's
// cursor over a fixed-size header, or leaves it alone when the header does
// not fit.
module Tlv {
  import opened Js
  import opened Decoding
  import opened Utils

  /**
   * An IPv6 header.  The header-compressed form (HCfB) carries no payload
   * length; the full form does.
   */
  datatype IPv6Header = IPv6Header(
    version: nat,
    trafficClass: nat,
    flowLabel: nat,
    nextHeader: nat,
    hopLimit: nat,
    sourceAddress: bytes,
    destinationAddress: bytes,
    payloadLength: Option<nat>)

  /** A UDP header; the compressed form keeps only the two ports. */
  datatype UDPHeader = UDPHeader(
    sourcePort: nat,
    destinationPort: nat,
    length: Option<nat>,
    checksum: Option<nat>)

  /** Bytes the IPv6 header occupies: 38 compressed, 40 in full. */
  function IPv6HeaderSize(full: bool): nat
  {
    if full then 40 else 38
  }

  function UDPHeaderSize(full: bool): nat
  {
    if full then 8 else 4
  }

  /** The IPv6 header whose first byte is at o. */
  function IPv6HeaderAt(b: bytes, o: int, full: bool): IPv6Header
    requires InView(b, o, IPv6HeaderSize(full))
  {
    var h := U32(b, o);
    var p := if full then o + 6 else o + 4;
    IPv6Header(
      h / 0x1000_0000 % 0x10,
      h / 0x10_0000 % 0x100,
      h % 0x10_0000,
      b[p],
      b[p + 1],
      b[p + 2..p + 18],
      b[p + 18..p + 34],
      if full then Some(U16(b, o + 4)) else None)
  }

  function UDPHeaderAt(b: bytes, o: int, full: bool): UDPHeader
    requires InView(b, o, UDPHeaderSize(full))
  {
    UDPHeader(
      U16(b, o),
      U16(b, o + 2),
      if full then Some(U16(b, o + 4)) else None,
      if full then Some(U16(b, o + 6)) else None)
  }

  /** The fields fit the widths the header gives them. */
  predicate WellFormedIPv6(h: IPv6Header)
  {
    h.version < 0x10 && h.trafficClass < 0x100 && h.flowLabel < 0x10_0000
    && h.nextHeader < 0x100 && h.hopLimit < 0x100
    && |h.sourceAddress| == 16 && |h.destinationAddress| == 16
    && (h.payloadLength.Some? ==> h.payloadLength.value < 0x1_0000)
  }

  /** The wire form of an IPv6 header: the inverse of IPv6HeaderAt. */
  ghost function EncodeIPv6Header(h: IPv6Header): (r: bytes)
    requires WellFormedIPv6(h)
    ensures |r| == IPv6HeaderSize(h.payloadLength.Some?)
  {
    Be32(h.version * 0x1000_0000 + h.trafficClass * 0x10_0000 + h.flowLabel)
    + (if h.payloadLength.Some? then Be16(h.payloadLength.value) else [])
    + [h.nextHeader as byte, h.hopLimit as byte]
    + h.sourceAddress + h.destinationAddress
  }

  /** The first word packs version, traffic class and flow label as 4, 8 and 20 bits. */
  lemma {:induction false} IPv6WordFields(v: nat, tc: nat, fl: nat)
    requires v < 0x10 && tc < 0x100 && fl < 0x10_0000
    ensures var w := v * 0x1000_0000 + tc * 0x10_0000 + fl;
      w / 0x1000_0000 % 0x10 == v && w / 0x10_0000 % 0x100 == tc && w % 0x10_0000 == fl
  {
    var w := v * 0x1000_0000 + tc * 0x10_0000 + fl;
    assert w / 0x1000_0000 == v;
    assert w / 0x10_0000 == v * 0x100 + tc;
  }

  /** The fields of an encoded header found at the start of b, each where IPv6HeaderAt reads it. */
  lemma {:induction false} IPv6HeaderWindow(b: bytes, h: IPv6Header)
    requires WellFormedIPv6(h) && At(b, 0, EncodeIPv6Header(h))
    ensures var p := if h.payloadLength.Some? then 6 else 4;
      p + 34 <= |b|
      && U32(b, 0) == h.version * 0x1000_0000 + h.trafficClass * 0x10_0000 + h.flowLabel
      && (h.payloadLength.Some? ==> U16(b, 4) == h.payloadLength.value)
      && b[p] == h.nextHeader && b[p + 1] == h.hopLimit
      && b[p + 2..p + 18] == h.sourceAddress && b[p + 18..p + 34] == h.destinationAddress
  {
    var w := Be32(h.version * 0x1000_0000 + h.trafficClass * 0x10_0000 + h.flowLabel);
    var len := if h.payloadLength.Some? then Be16(h.payloadLength.value) else [];
    var x1 := w + len;
    var x2 := x1 + [h.nextHeader as byte, h.hopLimit as byte];
    var x3 := x2 + h.sourceAddress;
    AtSplit(b, 0, x3, h.destinationAddress);
    AtSplit(b, 0, x2, h.sourceAddress);
    AtSplit(b, 0, x1, [h.nextHeader as byte, h.hopLimit as byte]);
    AtSplit(b, 0, w, len);
    AtU32(b, 0, w);
    if h.payloadLength.Some? {
      AtU16(b, 4, len);
    }
    var p := |x1|;
    var pair: bytes := [h.nextHeader as byte, h.hopLimit as byte];
    assert b[p + 0] == pair[0] && b[p + 1] == pair[1];
    AtSlice(b, p + 2, h.sourceAddress);
    AtSlice(b, p + 18, h.destinationAddress);
  }

  /** Decoding an encoded header, whatever follows it, gives the header back. */
  lemma {:induction false} IPv6HeaderRoundTrip(h: IPv6Header, rest: bytes)
    requires WellFormedIPv6(h)
    ensures IPv6HeaderAt(EncodeIPv6Header(h) + rest, 0, h.payloadLength.Some?) == h
  {
    AtPrefix(EncodeIPv6Header(h), rest);
    IPv6HeaderWindow(EncodeIPv6Header(h) + rest, h);
    IPv6WordFields(h.version, h.trafficClass, h.flowLabel);
  }

  /** `readHCfBIPv6Header`: the 38-byte compressed header. */
  method ReadHCfBIPv6Header(reader: BinaryReader) returns (r: Option<IPv6Header>)
    requires reader.offset >= 0
    modifies reader
    ensures r.Some? <==> old(reader.CanRead(38))
    ensures r.None? ==> reader.offset == old(reader.offset)
    ensures r.Some? ==> r.value == IPv6HeaderAt(reader.buffer, old(reader.offset), false)
                        && reader.offset == old(reader.offset) + 38
  {
    if !reader.CanRead(4 + 1 + 1 + 16 + 16) {
      return None;
    }
    var h := reader.ReadUint32();
    var nextHeader := reader.ReadUint8();
    var hopLimit := reader.ReadUint8();
    var sourceAddress := reader.Slice(16);
    var destinationAddress := reader.Slice(16);
    r := Some(IPv6Header(h / 0x1000_0000 % 0x10, h / 0x10_0000 % 0x100, h % 0x10_0000,
                         nextHeader, hopLimit, sourceAddress, destinationAddress, None));
  }

  /** `readIPv6Header`: the 40-byte header with its payload length. */
  method ReadIPv6Header(reader: BinaryReader) returns (r: Option<IPv6Header>)
    requires reader.offset >= 0
    modifies reader
    ensures r.Some? <==> old(reader.CanRead(40))
    ensures r.None? ==> reader.offset == old(reader.offset)
    ensures r.Some? ==> r.value == IPv6HeaderAt(reader.buffer, old(reader.offset), true)
                        && reader.offset == old(reader.offset) + 40
  {
    if !reader.CanRead(4 + 2 + 1 + 1 + 16 + 16) {
      return None;
    }
    var h := reader.ReadUint32();
    var payloadLength := reader.ReadUint16();
    var nextHeader := reader.ReadUint8();
    var hopLimit := reader.ReadUint8();
    var sourceAddress := reader.Slice(16);
    var destinationAddress := reader.Slice(16);
    r := Some(IPv6Header(h / 0x1000_0000 % 0x10, h / 0x10_0000 % 0x100, h % 0x10_0000,
                         nextHeader, hopLimit, sourceAddress, destinationAddress, Some(payloadLength)));
  }

  /** `readHCfBUDPHeader`: the two ports. */
  method ReadHCfBUDPHeader(reader: BinaryReader) returns (r: Option<UDPHeader>)
    requires reader.offset >= 0
    modifies reader
    ensures r.Some? <==> old(reader.CanRead(4))
    ensures r.None? ==> reader.offset == old(reader.offset)
    ensures r.Some? ==> r.value == UDPHeaderAt(reader.buffer, old(reader.offset), false)
                        && reader.offset == old(reader.offset) + 4
  {
    if !reader.CanRead(2 + 2) {
      return None;
    }
    var sourcePort := reader.ReadUint16();
    var destinationPort := reader.ReadUint16();
    r := Some(UDPHeader(sourcePort, destinationPort, None, None));
  }

  /** `readUDPHeader`: ports, length and checksum. */
  method ReadUDPHeader(reader: BinaryReader) returns (r: Option<UDPHeader>)
    requires reader.offset >= 0
    modifies reader
    ensures r.Some? <==> old(reader.CanRead(8))
    ensures r.None? ==> reader.offset == old(reader.offset)
    ensures r.Some? ==> r.value == UDPHeaderAt(reader.buffer, old(reader.offset), true)
                        && reader.offset == old(reader.offset) + 8
  {
    if !reader.CanRead(2 + 2 + 2 + 2) {
      return None;
    }
    var sourcePort := reader.ReadUint16();
    var destinationPort := reader.ReadUint16();
    var length := reader.ReadUint16();
    var checksum := reader.ReadUint16();
    r := Some(UDPHeader(sourcePort, destinationPort, Some(length), Some(checksum)));
  }

  predicate WellFormedUDP(h: UDPHeader)
  {
    h.sourcePort < 0x1_0000 && h.destinationPort < 0x1_0000
    && h.length.Some? == h.checksum.Some?
    && (h.length.Some? ==> h.length.value < 0x1_0000 && h.checksum.value < 0x1_0000)
  }

  ghost function EncodeUDPHeader(h: UDPHeader): (r: bytes)
    requires WellFormedUDP(h)
    ensures |r| == UDPHeaderSize(h.length.Some?)
  {
    Be16(h.sourcePort) + Be16(h.destinationPort)
    + (if h.length.Some? then Be16(h.length.value) + Be16(h.checksum.value) else [])
  }

  lemma {:induction false} UDPHeaderRoundTrip(h: UDPHeader, rest: bytes)
    requires WellFormedUDP(h)
    ensures UDPHeaderAt(EncodeUDPHeader(h) + rest, 0, h.length.Some?) == h
  {
    var b := EncodeUDPHeader(h) + rest;
    var tail := (if h.length.Some? then Be16(h.length.value) + Be16(h.checksum.value) else []) + rest;
    assert b == [] + Be16(h.sourcePort) + (Be16(h.destinationPort) + tail);
    U16Shift([], Be16(h.sourcePort), Be16(h.destinationPort) + tail);
    U16Shift(Be16(h.sourcePort), Be16(h.destinationPort), tail);
    assert b == Be16(h.sourcePort) + Be16(h.destinationPort) + tail;
    if h.length.Some? {
      var a := Be16(h.sourcePort) + Be16(h.destinationPort);
      U16Shift(a, Be16(h.length.value), Be16(h.checksum.value) + rest);
      assert b == a + Be16(h.length.value) + (Be16(h.checksum.value) + rest);
      U16Shift(a + Be16(h.length.value), Be16(h.checksum.value), rest);
      assert b == a + Be16(h.length.value) + Be16(h.checksum.value) + rest;
    }
  }
}
