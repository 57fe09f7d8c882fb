// `readMMTGeneralLocationInfo` (src/mmt-general-location-info.ts): where an
// asset or a package table is carried, read from the caller's cursor.
module LocationInfo {
  import opened Js
  import opened Decoding
  import opened Utils

  datatype MMTGeneralLocationInfo =
    | SameDataflow(packetId: nat)
    | IPv6Dataflow(ipv6SourceAddress: bytes, ipv6DestAddress: bytes, destPort: nat, packetId: nat)

  /** A decoded location together with the cursor position after it. */
  datatype Located = Located(info: Option<MMTGeneralLocationInfo>, next: int)

  /**
   * The location read at o.  Only types 0x00 and 0x02 decode, spanning 3 and
   * 37 bytes; the type byte is consumed even when the type is unknown or the
   * body is cut short.
   */
  function LocationInfoAt(b: bytes, o: int): (r: Located)
    requires o >= 0
    ensures r.info.Some? ==> o < |b| && b[o] in {0x00, 0x02}
    ensures r.info.Some? && r.info.value.SameDataflow? ==> b[o] == 0x00 && r.next == o + 3
    ensures r.info.Some? && r.info.value.IPv6Dataflow? ==> b[o] == 0x02 && r.next == o + 37
    ensures r.info.None? ==> r.next == if o < |b| then o + 1 else o
    ensures o <= |b| ==> r.next <= |b|
  {
    if |b| < 1 + o then Located(None, o)
    else if b[o] == 0x00 then
      if |b| < 2 + (o + 1) then Located(None, o + 1)
      else Located(Some(SameDataflow(U16(b, o + 1))), o + 3)
    else if b[o] == 0x02 then
      if |b| < 36 + (o + 1) then Located(None, o + 1)
      else Located(Some(IPv6Dataflow(b[o + 1..o + 17], b[o + 17..o + 33], U16(b, o + 33), U16(b, o + 35))), o + 37)
    else Located(None, o + 1)
  }

  method ReadMMTGeneralLocationInfo(reader: BinaryReader) returns (r: Option<MMTGeneralLocationInfo>)
    requires reader.offset >= 0
    modifies reader
    ensures r == LocationInfoAt(reader.buffer, old(reader.offset)).info
    ensures reader.offset == LocationInfoAt(reader.buffer, old(reader.offset)).next
  {
    if !reader.CanRead(1) {
      return None;
    }
    var locationType := reader.ReadUint8();
    if locationType == 0x00 {
      if !reader.CanRead(2) {
        return None;
      }
      var packetId := reader.ReadUint16();
      r := Some(SameDataflow(packetId));
    } else if locationType == 0x02 {
      if !reader.CanRead(16 + 16 + 2 + 2) {
        return None;
      }
      var source := reader.Slice(16);
      var dest := reader.Slice(16);
      var destPort := reader.ReadUint16();
      var packetId := reader.ReadUint16();
      r := Some(IPv6Dataflow(source, dest, destPort, packetId));
    } else {
      r := None;
    }
  }

  predicate WellFormed(info: MMTGeneralLocationInfo)
  {
    match info
    case SameDataflow(p) => p < 0x1_0000
    case IPv6Dataflow(s, d, port, p) => |s| == 16 && |d| == 16 && port < 0x1_0000 && p < 0x1_0000
  }

  /** The wire form: a type byte and the fields, the inverse of LocationInfoAt. */
  ghost function EncodeLocationInfo(info: MMTGeneralLocationInfo): (r: bytes)
    requires WellFormed(info)
    ensures |r| == if info.SameDataflow? then 3 else 37
  {
    match info
    case SameDataflow(p) => [0x00] + Be16(p)
    case IPv6Dataflow(s, d, port, p) => [0x02] + s + d + Be16(port) + Be16(p)
  }

  lemma {:induction false} LocationInfoRoundTrip(info: MMTGeneralLocationInfo, rest: bytes)
    requires WellFormed(info)
    ensures LocationInfoAt(EncodeLocationInfo(info) + rest, 0)
            == Located(Some(info), |EncodeLocationInfo(info)|)
  {
    match info
    case SameDataflow(p) => SameDataflowRoundTrip(p, rest);
    case IPv6Dataflow(s, d, port, p) => IPv6DataflowRoundTrip(s, d, port, p, rest);
  }

  lemma {:induction false} SameDataflowRoundTrip(p: nat, rest: bytes)
    requires p < 0x1_0000
    ensures LocationInfoAt([0x00] + Be16(p) + rest, 0) == Located(Some(SameDataflow(p)), 3)
  {
    U16Shift([0x00], Be16(p), rest);
  }

  lemma {:induction false} IPv6DataflowRoundTrip(s: bytes, d: bytes, port: nat, p: nat, rest: bytes)
    requires |s| == 16 && |d| == 16 && port < 0x1_0000 && p < 0x1_0000
    ensures LocationInfoAt([0x02] + s + d + Be16(port) + Be16(p) + rest, 0)
            == Located(Some(IPv6Dataflow(s, d, port, p)), 37)
  {
    var b := [0x02] + s + d + Be16(port) + Be16(p) + rest;
    var head := [0x02] + s + d;
    assert U16(b, 33) == port by {
      assert b == head + Be16(port) + (Be16(p) + rest);
      U16Shift(head, Be16(port), Be16(p) + rest);
    }
    assert U16(b, 35) == p by {
      assert b == head + Be16(port) + Be16(p) + rest;
      U16Shift(head + Be16(port), Be16(p), rest);
    }
    assert b[1..17] == s && b[17..33] == d;
  }

  /** A location read at p sees only the bytes from p on. */
  lemma {:induction false} LocationAfter(b: bytes, p: nat, tail: bytes)
    requires p <= |b| && b[p..] == tail
    ensures LocationInfoAt(b, p).info == LocationInfoAt(tail, 0).info
    ensures LocationInfoAt(b, p).next == p + LocationInfoAt(tail, 0).next
  {
    if p + 1 <= |b| {
      assert b[p] == tail[0];
      if b[p] == 0x00 && p + 3 <= |b| {
        U16Window(b, p + 1, tail[1..3]);
        assert tail[1..3][0] == tail[1] && tail[1..3][1] == tail[2];
      }
      if b[p] == 0x02 && p + 37 <= |b| {
        U16Window(b, p + 33, tail[33..35]);
        U16Window(b, p + 35, tail[35..37]);
        assert tail[33..35][0] == tail[33] && tail[33..35][1] == tail[34];
        assert tail[35..37][0] == tail[35] && tail[35..37][1] == tail[36];
        assert b[p + 1..p + 17] == tail[1..17] && b[p + 17..p + 33] == tail[17..33];
      }
    }
  }

  /** An encoded location found at p is read back, and the cursor ends just after it. */
  lemma {:induction false} LocationWindow(b: bytes, p: nat, info: MMTGeneralLocationInfo)
    requires WellFormed(info)
    requires p + |EncodeLocationInfo(info)| <= |b| && b[p..p + |EncodeLocationInfo(info)|] == EncodeLocationInfo(info)
    ensures LocationInfoAt(b, p) == Located(Some(info), p + |EncodeLocationInfo(info)|)
  {
    var e := EncodeLocationInfo(info);
    var rest := b[p + |e|..];
    assert b[p..] == e + rest;
    LocationInfoRoundTrip(info, rest);
    LocationAfter(b, p, e + rest);
  }

  /** An encoded location found at p is read back. */
  lemma {:induction false} LocationFound(b: bytes, p: nat, info: MMTGeneralLocationInfo)
    requires WellFormed(info) && At(b, p, EncodeLocationInfo(info))
    ensures LocationInfoAt(b, p) == Located(Some(info), p + |EncodeLocationInfo(info)|)
  {
    AtSlice(b, p, EncodeLocationInfo(info));
    LocationWindow(b, p, info);
  }

  /**
   * Bytes that end the buffer and that the reader cannot make a location
   * of: none left, a type other than 0x00 and 0x02, or a known type cut
   * short.
   */
  predicate Unlocatable(t: bytes)
  {
    |t| == 0 || (t[0] != 0x00 && t[0] != 0x02) || (t[0] == 0x00 && |t| < 3) || (t[0] == 0x02 && |t| < 37)
  }

  /** Unlocatable bytes at the end of the buffer give no location. */
  lemma {:induction false} UnlocatableAt(x: bytes, t: bytes)
    requires Unlocatable(t)
    ensures LocationInfoAt(x + t, |x|).info.None?
  {
    if |t| > 0 {
      assert (x + t)[|x|] == t[0];
    }
  }
}
