// The TLV-SI tables carried by TLV packets of type 0xFE (src/tlv-si.ts): the
// TLV network information table, the address map table, and the descriptor
// lists inside them.  Every reader runs over the whole TLV packet, starting
// after its 4-byte header, so all offsets below are offsets in the packet.
module TlvSi {
  import opened Js
  import opened Decoding
  import opened Utils
  import opened Sections
  import opened SiDescriptor

  const TLV_HEADER_SIZE := 4

  const TLV_SI_NIT_ACTUAL := 0x40
  const TLV_SI_NIT_OTHER := 0x41
  const TLV_SI_AMT := 0xfe

  const TLV_SI_NETWORK_NAME_DESCRIPTOR := 0x40
  const TLV_SI_SERVICE_LIST_DESCRIPTOR := 0x41
  const TLV_SI_SATELLITE_DELIVERY_SYSTEM_DESCRIPTOR := 0x43
  const TLV_SI_REMOTE_CONTROL_KEY_DESCRIPTOR := 0xcd
  const TLV_SI_SYSTEM_MANAGEMENT_DESCRIPTOR := 0xfe

  datatype RemoteControlKey = RemoteControlKey(remoteControlKeyId: nat, serviceId: nat)

  datatype TLVSIDescriptor =
    | NetworkName(networkName: NetworkNameDescriptor)
    | SystemManagement(systemManagement: SystemManagementDescriptor)
    | RemoteControlKeys(keys: seq<RemoteControlKey>)
    | ServiceList(services: seq<ServiceListEntry>)
    | SatelliteDeliverySystem(satelliteDeliverySystem: SatelliteDeliverySystemDescriptor)

  datatype TLVStream = TLVStream(tlvStreamId: nat, originalNetworkId: nat, descriptors: seq<TLVSIDescriptor>)

  datatype ServiceIPInformation = ServiceIPInformation(
    ipv6: bool,
    sourceAddress: bytes,
    sourceAddressMask: nat,
    destAddress: bytes,
    destAddressMask: nat)

  datatype AMTService = AMTService(serviceId: nat, ip: ServiceIPInformation, privateData: bytes)

  /** The section header fields of these tables; the version keeps its bit position. */
  datatype TLVSectionHeader = TLVSectionHeader(
    versionNumber: nat,
    currentNextIndicator: bool,
    sectionNumber: nat,
    lastSectionNumber: nat)

  datatype TLVSITable =
    | NIT(actual: bool, networkId: nat, header: TLVSectionHeader,
          networkDescriptors: seq<TLVSIDescriptor>, tlvStreams: seq<TLVStream>)
    | AMT(tableIdExtension: nat, header: TLVSectionHeader, services: seq<AMTService>)

  // ---------------------------------------------------------------------
  // Remote control key descriptor

  /** `buffer[k]`: an index past the end reads `undefined`, which a bitwise operator turns into 0. */
  function ByteOrZero(b: bytes, k: nat): (r: nat)
    ensures r < 0x100
    ensures k < |b| ==> r == b[k]
    ensures k >= |b| ==> r == 0
  {
    if k < |b| then b[k] else 0
  }

  /**
   * Keys i..n-1 of `readRemoteControlKeyDescriptor`, key i at byte 1 + 5i.
   * The guard demands two of the key's three bytes, so the low byte of the
   * service id of a key cut after its high byte reads as 0.
   */
  function KeysFrom(b: bytes, i: nat, n: nat): seq<RemoteControlKey>
    decreases n - i
  {
    if i >= n || |b| < 1 + i * 5 + 2 then []
    else [RemoteControlKey(b[1 + i * 5], b[1 + i * 5 + 1] * 0x100 + ByteOrZero(b, 1 + i * 5 + 2))] + KeysFrom(b, i + 1, n)
  }

  /** How many of keys i..n-1 pass the guard, which fails from the first key that starts too late. */
  function KeysCount(len: nat, i: nat, n: nat): (c: nat)
  {
    var fit := if len < 3 then 0 else (len - 3) / 5 + 1;
    if fit < n then (if i < fit then fit - i else 0) else (if i < n then n - i else 0)
  }

  /** Key i + k is read from bytes 1 + 5(i+k) onwards, and the list stops at the count or the guard. */
  lemma {:induction false} KeysFromSpec(b: bytes, i: nat, n: nat)
    ensures |KeysFrom(b, i, n)| == KeysCount(|b|, i, n)
    ensures forall k :: 0 <= k < |KeysFrom(b, i, n)| ==>
              1 + (i + k) * 5 + 1 < |b| &&
              KeysFrom(b, i, n)[k] == RemoteControlKey(b[1 + (i + k) * 5], b[1 + (i + k) * 5 + 1] * 0x100 + ByteOrZero(b, 1 + (i + k) * 5 + 2))
    decreases n - i
  {
    if i >= n || |b| < 1 + i * 5 + 2 {
    } else {
      KeysFromSpec(b, i + 1, n);
      var r := KeysFrom(b, i, n);
      forall k | 0 < k < |r|
        ensures r[k] == KeysFrom(b, i + 1, n)[k - 1]
      {
      }
    }
  }

  /** With all 5n bytes present every key is read whole, the service id from both of its bytes. */
  lemma {:induction false} KeysFromComplete(b: bytes, n: nat)
    requires |b| >= 1 + 5 * n
    ensures |KeysFrom(b, 0, n)| == n
    ensures forall k :: 0 <= k < n ==> KeysFrom(b, 0, n)[k] == RemoteControlKey(b[1 + k * 5], U16(b, 1 + k * 5 + 1))
  {
    KeysFromSpec(b, 0, n);
  }

  /** `readRemoteControlKeyDescriptor`: the count byte, then up to that many keys. */
  function RemoteControlKeyOf(buffer: bytes): (r: Option<TLVSIDescriptor>)
    ensures r.None? <==> |buffer| < 1
    ensures r.Some? ==> r.value == RemoteControlKeys(KeysFrom(buffer, 0, buffer[0]))
  {
    if |buffer| < 1 then None else Some(RemoteControlKeys(KeysFrom(buffer, 0, buffer[0])))
  }

  method ReadRemoteControlKeyDescriptor(buffer: bytes) returns (r: Option<TLVSIDescriptor>)
    ensures r == RemoteControlKeyOf(buffer)
  {
    if |buffer| < 1 {
      return None;
    }
    var numOfRemoteControlKeyId: nat := buffer[0];
    var keys: seq<RemoteControlKey> := [];
    var i: nat := 0;
    while i < numOfRemoteControlKeyId
      invariant 0 <= i <= numOfRemoteControlKeyId
      invariant keys + KeysFrom(buffer, i, numOfRemoteControlKeyId) == KeysFrom(buffer, 0, numOfRemoteControlKeyId)
    {
      if |buffer| < 1 + i * 5 + 2 {
        break;
      }
      var remoteControlKeyId := buffer[1 + i * 5];
      // `(hi << 8) | lo` of two byte values
      var serviceId := (buffer[1 + i * 5 + 1] as int) * 0x100 + ByteOrZero(buffer, 1 + i * 5 + 2);
      ListStep(keys, RemoteControlKey(remoteControlKeyId, serviceId), KeysFrom(buffer, i + 1, numOfRemoteControlKeyId));
      keys := keys + [RemoteControlKey(remoteControlKeyId, serviceId)];
      i := i + 1;
    }
    assert keys + [] == keys;
    r := Some(RemoteControlKeys(keys));
  }

  // ---------------------------------------------------------------------
  // readDescriptors

  /** The descriptor the reader of a tag makes of a body; None for an unknown tag or a rejected body. */
  function TLVDescriptorOf(tag: nat, data: bytes): (r: Option<TLVSIDescriptor>)
    ensures (tag != TLV_SI_NETWORK_NAME_DESCRIPTOR && tag != TLV_SI_SERVICE_LIST_DESCRIPTOR
             && tag != TLV_SI_SATELLITE_DELIVERY_SYSTEM_DESCRIPTOR && tag != TLV_SI_REMOTE_CONTROL_KEY_DESCRIPTOR
             && tag != TLV_SI_SYSTEM_MANAGEMENT_DESCRIPTOR) ==> r.None?
    ensures tag == TLV_SI_NETWORK_NAME_DESCRIPTOR ==> r == Some(NetworkName(NetworkNameOf(data)))
    ensures tag == TLV_SI_SERVICE_LIST_DESCRIPTOR ==> r == Some(ServiceList(ServiceEntries(data, 0)))
    ensures tag == TLV_SI_REMOTE_CONTROL_KEY_DESCRIPTOR ==> r == RemoteControlKeyOf(data)
    ensures tag == TLV_SI_SYSTEM_MANAGEMENT_DESCRIPTOR ==> (r.Some? <==> SystemManagementOf(data).Some?)
    ensures tag == TLV_SI_SATELLITE_DELIVERY_SYSTEM_DESCRIPTOR ==> (r.Some? <==> SatelliteDeliverySystemOf(data).Some?)
  {
    if tag == TLV_SI_NETWORK_NAME_DESCRIPTOR then Some(NetworkName(NetworkNameOf(data)))
    else if tag == TLV_SI_SYSTEM_MANAGEMENT_DESCRIPTOR then
      match SystemManagementOf(data)
      case Some(d) => Some(SystemManagement(d))
      case None => None
    else if tag == TLV_SI_REMOTE_CONTROL_KEY_DESCRIPTOR then RemoteControlKeyOf(data)
    else if tag == TLV_SI_SERVICE_LIST_DESCRIPTOR then Some(ServiceList(ServiceEntries(data, 0)))
    else if tag == TLV_SI_SATELLITE_DELIVERY_SYSTEM_DESCRIPTOR then
      match SatelliteDeliverySystemOf(data)
      case Some(d) => Some(SatelliteDeliverySystem(d))
      case None => None
    else None
  }

  /** The list a reader result adds: itself when defined, nothing when undefined. */
  function Kept(d: Option<TLVSIDescriptor>): (r: seq<TLVSIDescriptor>)
    ensures |r| <= 1 && (r == [] <==> d.None?)
    ensures d.Some? ==> r[0] == d.value
  {
    if d.Some? then [d.value] else []
  }

  /**
   * `readDescriptors` from o: a tag byte and a length byte per descriptor,
   * read only while 4 bytes remain, and the walk ends at the first body that
   * overruns the buffer.
   */
  function TLVDescriptorsFrom(b: bytes, o: nat): seq<TLVSIDescriptor>
    decreases |b| - o
  {
    if |b| < o + 4 then []
    else
      var length := b[o + 1];
      if |b| < o + 2 + length then []
      else Kept(TLVDescriptorOf(b[o], b[o + 2..o + 2 + length])) + TLVDescriptorsFrom(b, o + 2 + length)
  }

  /** The descriptor list in the n bytes from p, cut as `subarray` cuts them. */
  function TLVDescriptorsIn(b: bytes, p: int, n: int): seq<TLVSIDescriptor>
  {
    TLVDescriptorsFrom(Js.Slice(b, p, p + n), 0)
  }

  /** One descriptor as it appears in a list: its tag, and its body of fewer than 256 bytes. */
  datatype TLVFrame = TLVFrame(tag: byte, data: bytes)

  ghost function EncodeFrames(fs: seq<TLVFrame>): (r: bytes)
    requires forall i :: 0 <= i < |fs| ==> |fs[i].data| < 0x100
  {
    if fs == [] then [] else [fs[0].tag, |fs[0].data| as byte] + fs[0].data + EncodeFrames(fs[1..])
  }

  /** What the tag readers make of a list of frames, in order, with rejected bodies and unknown tags dropped. */
  function CollectFrames(fs: seq<TLVFrame>): seq<TLVSIDescriptor>
  {
    if fs == [] then [] else Kept(TLVDescriptorOf(fs[0].tag, fs[0].data)) + CollectFrames(fs[1..])
  }

  /**
   * A list of frames whose bodies have at least two bytes each reads back as
   * their descriptors in order; shorter bodies can end the walk early, as
   * `FinalShortFrameDropped` shows.
   */
  lemma {:induction false} TLVDescriptorsRoundTrip(b: bytes, o: nat, fs: seq<TLVFrame>)
    requires FramesFit(fs)
    requires At(b, o, EncodeFrames(fs)) && |b| == o + |EncodeFrames(fs)|
    ensures TLVDescriptorsFrom(b, o) == CollectFrames(fs)
  {
    TLVDescriptorsThen(b, o, fs);
    assert CollectFrames(fs) + [] == CollectFrames(fs);
  }

  /** A run of frames whose bodies have at least two bytes each is read as their descriptors, then the walk goes on after them. */
  lemma {:induction false} TLVDescriptorsThen(b: bytes, o: nat, fs: seq<TLVFrame>)
    requires FramesFit(fs) && At(b, o, EncodeFrames(fs))
    ensures TLVDescriptorsFrom(b, o) == CollectFrames(fs) + TLVDescriptorsFrom(b, o + |EncodeFrames(fs)|)
    decreases |fs|
  {
    if fs != [] {
      FrameAt(b, o, fs);
      TLVDescriptorsThen(b, o + 2 + |fs[0].data|, fs[1..]);
      ThenStep(b, o, fs[0].tag, fs[0].data, CollectFrames(fs), CollectFrames(fs[1..]), TLVDescriptorsFrom(b, o + |EncodeFrames(fs)|));
    }
  }

  /**
   * A frame found at o is read before whatever the walk makes of what
   * follows it: front, the frame's descriptor before c, then x.
   */
  lemma {:induction false} ThenStep(b: bytes, o: nat, tag: byte, data: bytes, front: seq<TLVSIDescriptor>,
                                    c: seq<TLVSIDescriptor>, x: seq<TLVSIDescriptor>)
    requires 2 <= |data| && o + 2 + |data| <= |b| && b[o] == tag && b[o + 1] as int == |data| && b[o + 2..o + 2 + |data|] == data
    requires TLVDescriptorsFrom(b, o + 2 + |data|) == c + x && front == Kept(TLVDescriptorOf(tag, data)) + c
    ensures TLVDescriptorsFrom(b, o) == front + x
  {
    DescriptorsFromStep(b, o);
    Regroup(TLVDescriptorsFrom(b, o), front, Kept(TLVDescriptorOf(tag, data)), c, x);
  }

  /** A list that is k before c before x is the list k before c, before x. */
  lemma {:induction false} Regroup<T>(whole: seq<T>, front: seq<T>, k: seq<T>, c: seq<T>, x: seq<T>)
    requires whole == k + (c + x) && front == k + c
    ensures whole == front + x
  {
    assert k + (c + x) == (k + c) + x;
  }

  /** A frame found at o is read, before whatever the walk makes of what follows it. */
  lemma {:induction false} FirstFrameRead(b: bytes, o: nat, tag: byte, data: bytes, y: seq<TLVSIDescriptor>)
    requires 2 <= |data| && o + 2 + |data| <= |b| && b[o] == tag && b[o + 1] as int == |data| && b[o + 2..o + 2 + |data|] == data
    requires TLVDescriptorsFrom(b, o + 2 + |data|) == y
    ensures TLVDescriptorsFrom(b, o) == Kept(TLVDescriptorOf(tag, data)) + y
  {
    DescriptorsFromStep(b, o);
  }

  /** Every body of the list has between 2 and 255 bytes. */
  ghost predicate FramesFit(fs: seq<TLVFrame>)
  {
    forall i :: 0 <= i < |fs| ==> 2 <= |fs[i].data| < 0x100
  }

  /** One turn of the descriptor walk. */
  lemma {:induction false} DescriptorsFromStep(b: bytes, o: nat)
    requires |b| >= o + 4 && |b| >= o + 2 + b[o + 1] as int
    ensures TLVDescriptorsFrom(b, o)
            == Kept(TLVDescriptorOf(b[o], b[o + 2..o + 2 + b[o + 1] as int])) + TLVDescriptorsFrom(b, o + 2 + b[o + 1] as int)
  {
  }

  /** The head of a list of encoded frames: the first tag, its length byte and body, then the other frames. */
  lemma {:induction false} FrameAt(b: bytes, o: nat, fs: seq<TLVFrame>)
    requires fs != [] && FramesFit(fs)
    requires At(b, o, EncodeFrames(fs))
    ensures |EncodeFrames(fs)| == 2 + |fs[0].data| + |EncodeFrames(fs[1..])| && FramesFit(fs[1..])
    ensures b[o] == fs[0].tag && b[o + 1] as int == |fs[0].data| && o + 4 <= |b|
    ensures b[o + 2..o + 2 + |fs[0].data|] == fs[0].data && At(b, o + 2 + |fs[0].data|, EncodeFrames(fs[1..]))
    ensures CollectFrames(fs) == Kept(TLVDescriptorOf(fs[0].tag, fs[0].data)) + CollectFrames(fs[1..])
  {
    var f := fs[0];
    var rest := EncodeFrames(fs[1..]);
    var hd: bytes := [f.tag, |f.data| as byte];
    assert EncodeFrames(fs) == hd + f.data + rest;
    AtSplit(b, o, hd + f.data, rest);
    AtSplit(b, o, hd, f.data);
    assert b[o] == hd[0] && b[o + 1] == hd[1];
    AtSlice(b, o + 2, f.data);
    assert forall i :: 0 <= i < |fs[1..]| ==> fs[1..][i] == fs[i + 1];
  }

  /**
   * A last frame whose body has fewer than two bytes is never read, since
   * the walk wants four bytes before each tag, although the reader would
   * make a descriptor of it (a network name of any body, for one): the list
   * is what the frames before it make.
   */
  lemma {:induction false} FinalShortFrameDropped(fs: seq<TLVFrame>, tag: byte, body: bytes)
    requires FramesFit(fs) && |body| <= 1
    ensures TLVDescriptorOf(TLV_SI_NETWORK_NAME_DESCRIPTOR, body).Some?
    ensures TLVDescriptorsFrom(EncodeFrames(fs) + [tag, |body| as byte] + body, 0) == CollectFrames(fs)
  {
    var x := EncodeFrames(fs);
    var b := x + [tag, |body| as byte] + body;
    assert b == x + ([tag, |body| as byte] + body);
    AtPrefix(x, [tag, |body| as byte] + body);
    TLVDescriptorsThen(b, 0, fs);
    assert TLVDescriptorsFrom(b, |x|) == [];
  }

  method ReadTLVDescriptor(tag: nat, data: bytes) returns (r: Option<TLVSIDescriptor>)
    ensures r == TLVDescriptorOf(tag, data)
  {
    if tag == TLV_SI_NETWORK_NAME_DESCRIPTOR {
      r := Some(NetworkName(NetworkNameOf(data)));
    } else if tag == TLV_SI_SYSTEM_MANAGEMENT_DESCRIPTOR {
      var d := SystemManagementOf(data);
      r := if d.Some? then Some(SystemManagement(d.value)) else None;
    } else if tag == TLV_SI_REMOTE_CONTROL_KEY_DESCRIPTOR {
      r := ReadRemoteControlKeyDescriptor(data);
    } else if tag == TLV_SI_SERVICE_LIST_DESCRIPTOR {
      var services := ReadServiceListDescriptor(data);
      r := Some(ServiceList(services));
    } else if tag == TLV_SI_SATELLITE_DELIVERY_SYSTEM_DESCRIPTOR {
      var d := SatelliteDeliverySystemOf(data);
      r := if d.Some? then Some(SatelliteDeliverySystem(d.value)) else None;
    } else {
      r := None;
    }
  }

  method ReadDescriptors(buffer: bytes) returns (descriptors: seq<TLVSIDescriptor>)
    ensures descriptors == TLVDescriptorsFrom(buffer, 0)
  {
    var reader := new BinaryReader(buffer, 0);
    descriptors := [];
    while reader.CanRead(4)
      invariant reader.buffer == buffer && reader.offset >= 0
      invariant descriptors + TLVDescriptorsFrom(buffer, reader.offset) == TLVDescriptorsFrom(buffer, 0)
      decreases |buffer| - reader.offset
    {
      ghost var o := reader.offset;
      var done, kept := ReadDescriptor(reader);
      if done {
        break;
      }
      assert descriptors + (kept + TLVDescriptorsFrom(buffer, reader.offset)) == (descriptors + kept) + TLVDescriptorsFrom(buffer, reader.offset);
      descriptors := descriptors + kept;
    }
    assert descriptors + [] == descriptors;
  }

  /** One pass of the `readDescriptors` loop: the `break` on an overrun, or what one descriptor adds. */
  method ReadDescriptor(reader: BinaryReader) returns (done: bool, kept: seq<TLVSIDescriptor>)
    requires reader.offset >= 0 && reader.CanRead(4)
    modifies reader
    ensures done ==> TLVDescriptorsFrom(reader.buffer, old(reader.offset)) == []
    ensures !done ==> old(reader.offset) < reader.offset
                      && TLVDescriptorsFrom(reader.buffer, old(reader.offset)) == kept + TLVDescriptorsFrom(reader.buffer, reader.offset)
  {
    ghost var o := reader.offset;
    var tag := reader.ReadUint8();
    var length := reader.ReadUint8();
    if !reader.CanRead(length) {
      return true, [];
    }
    var data := reader.Subarray(length);
    DescriptorsFromStep(reader.buffer, o);
    var d := ReadTLVDescriptor(tag, data);
    done, kept := false, Kept(d);
  }

  /** `readDescriptors(reader.subarray(n))`. */
  method ReadDescriptorsIn(reader: BinaryReader, n: int) returns (descriptors: seq<TLVSIDescriptor>)
    modifies reader
    ensures reader.offset == old(reader.offset) + n
    ensures descriptors == TLVDescriptorsIn(reader.buffer, old(reader.offset), n)
  {
    var data := reader.Subarray(n);
    descriptors := ReadDescriptors(data);
  }

  // ---------------------------------------------------------------------
  // Section header

  /**
   * The three bytes after the table id extension: `h2 & 0b00111110` keeps
   * the 5-bit version in place, so it is twice the version a long section
   * header carries; the indicator and section numbers are the usual ones.
   */
  function TLVHeaderAt(b: bytes, o: nat): (h: TLVSectionHeader)
    requires o + 3 <= |b|
    ensures h.versionNumber == 2 * SectionHeaderAt(b, o).versionNumber
    ensures h.currentNextIndicator == SectionHeaderAt(b, o).currentNextIndicator
    ensures h.sectionNumber == SectionHeaderAt(b, o).sectionNumber
    ensures h.lastSectionNumber == SectionHeaderAt(b, o).lastSectionNumber
  {
    TLVSectionHeader(b[o] % 0x40 / 2 * 2, b[o] % 2 == 1, b[o + 1], b[o + 2])
  }

  method ReadTLVHeader(reader: BinaryReader) returns (h: TLVSectionHeader)
    requires reader.InView(3)
    modifies reader
    ensures reader.offset == old(reader.offset) + 3
    ensures h == TLVHeaderAt(reader.buffer, old(reader.offset))
  {
    var h2 := reader.ReadUint8();
    var versionNumber := h2 % 0x40 / 2 * 2;
    var currentNextIndicator := h2 % 2 == 1;
    var sectionNumber := reader.ReadUint8();
    var lastSectionNumber := reader.ReadUint8();
    h := TLVSectionHeader(versionNumber, currentNextIndicator, sectionNumber, lastSectionNumber);
  }

  // ---------------------------------------------------------------------
  // TLV-NIT

  /** One TLV stream at s: 6 fixed bytes, then its descriptors, which must fit. */
  function StreamAt(b: bytes, s: nat): (r: Step<TLVStream>)
    ensures r.Done? <==> |b| < s + 10
    ensures r.Undef? <==> |b| >= s + 10 && |b| < s + 6 + U16(b, s + 4) % 0x1000
    ensures r.Read? ==> r.next == s + 6 + U16(b, s + 4) % 0x1000 <= |b|
                        && r.value.tlvStreamId == U16(b, s) && r.value.originalNetworkId == U16(b, s + 2)
  {
    if |b| < s + 2 + 2 + 2 + 4 then Done
    else
      var length := U16(b, s + 4) % 0x1000;
      if |b| < s + 6 + length then Undef
      else Read(TLVStream(U16(b, s), U16(b, s + 2), TLVDescriptorsIn(b, s + 6, length)), s + 6 + length)
  }

  /** The stream loop from s: it runs while 10 bytes remain, and one overrunning stream undoes the table. */
  function StreamsFrom(b: bytes, s: nat): (r: Decoded<seq<TLVStream>>)
    ensures !r.Thrown?
    decreases |b| - s
  {
    match StreamAt(b, s)
    case Read(x, next) => Chain([x], StreamsFrom(b, next))
    case Undef => Undefined
    case _ => Ok([])
  }

  /**
   * `readNIT` from offset 5: seven header bytes, the section length (bit 15
   * the syntax indicator, which must be set), then the network descriptors.
   */
  function NITOf(b: bytes, actual: bool): (r: Decoded<TLVSITable>)
    ensures |b| >= 12 && U16(b, 5) < 0x8000 ==> r.Undefined?
    ensures |b| >= 12 && |b| < 7 + U16(b, 5) % 0x1000 ==> r.Undefined?
    ensures r.Ok? ==> r.value.NIT? && r.value.actual == actual && |b| >= 14
                      && r.value.networkId == U16(b, 7) && r.value.header == TLVHeaderAt(b, 9)
                      && r.value.networkDescriptors == TLVDescriptorsIn(b, 14, U16(b, 12) % 0x1000)
    ensures r.Ok? ==> StreamsFrom(b, 14 + U16(b, 12) % 0x1000 + 2) == Ok(r.value.tlvStreams)
  {
    if |b| < 5 + 2 + 2 + 1 + 1 + 1 then Undefined
    else
      var h := U16(b, 5);
      if h < 0x8000 || |b| < 7 + h % 0x1000 || |b| < 14 then Undefined
      else
        var length := U16(b, 12) % 0x1000;
        if |b| < 14 + length then Undefined
        else NITStreamsOf(b, 14 + length, NIT(actual, U16(b, 7), TLVHeaderAt(b, 9), TLVDescriptorsIn(b, 14, length), []))
  }

  /** The TLV stream loop from q, read without a bounds check on its length field, completing t. */
  function NITStreamsOf(b: bytes, q: nat, t: TLVSITable): (r: Decoded<TLVSITable>)
    requires t.NIT?
    ensures |b| < q + 2 <==> r.Thrown?
    ensures r.Ok? ==> r.value.NIT? && q + 2 + U16(b, q) % 0x1000 <= |b| && StreamsFrom(b, q + 2) == Ok(r.value.tlvStreams)
                      && r.value == t.(tlvStreams := r.value.tlvStreams)
  {
    if |b| < q + 2 then Thrown
    else if |b| < q + 2 + U16(b, q) % 0x1000 then Undefined
    else
      var streams :- StreamsFrom(b, q + 2);
      Ok(t.(tlvStreams := streams))
  }

  method ReadNIT(reader: BinaryReader, actual: bool) returns (r: Decoded<TLVSITable>)
    requires reader.offset == 5
    modifies reader
    ensures r == NITOf(reader.buffer, actual)
  {
    if !reader.CanRead(2 + 2 + 1 + 1 + 1) {
      return Undefined;
    }
    var h := reader.ReadUint16();
    var sectionSyntaxIndicator := h >= 0x8000;
    if !sectionSyntaxIndicator {
      return Undefined;
    }
    var sectionLength := h % 0x1000;
    if !reader.CanRead(sectionLength) {
      return Undefined;
    }
    var networkId := reader.ReadUint16();
    var header := ReadTLVHeader(reader);
    if !reader.CanRead(2) {
      return Undefined;
    }
    var f := reader.ReadUint16();
    var networkDescriptorsLength := f % 0x1000;
    if !reader.CanRead(networkDescriptorsLength) {
      return Undefined;
    }
    var networkDescriptors := ReadDescriptorsIn(reader, networkDescriptorsLength);
    r := ReadNITStreams(reader, NIT(actual, networkId, header, networkDescriptors, []));
  }

  method ReadNITStreams(reader: BinaryReader, t: TLVSITable) returns (r: Decoded<TLVSITable>)
    requires t.NIT? && reader.offset >= 0
    modifies reader
    ensures r == NITStreamsOf(reader.buffer, old(reader.offset), t)
  {
    if !reader.InView(2) {
      // DataView.getUint16 past the end
      return Thrown;
    }
    var f := reader.ReadUint16();
    var tlvStreamLoopLength := f % 0x1000;
    if !reader.CanRead(tlvStreamLoopLength) {
      return Undefined;
    }
    var streams :- ReadStreams(reader);
    r := Ok(t.(tlvStreams := streams));
  }

  method ReadStreams(reader: BinaryReader) returns (r: Decoded<seq<TLVStream>>)
    requires reader.offset >= 0
    modifies reader
    ensures r == StreamsFrom(reader.buffer, old(reader.offset))
  {
    ghost var b, o := reader.buffer, reader.offset;
    var streams: seq<TLVStream> := [];
    ChainEmpty(StreamsFrom(b, o));
    while reader.CanRead(2 + 2 + 2 + 4)
      invariant reader.buffer == b && reader.offset >= 0
      invariant Chain(streams, StreamsFrom(b, reader.offset)) == StreamsFrom(b, o)
      decreases |b| - reader.offset
    {
      var step := ReadStream(reader);
      if !step.Read? {
        return Undefined;
      }
      ChainAppend(streams, step.value, StreamsFrom(b, reader.offset));
      streams := streams + [step.value];
    }
    ChainDone(streams);
    r := Ok(streams);
  }

  method ReadStream(reader: BinaryReader) returns (step: Step<TLVStream>)
    requires reader.offset >= 0 && reader.CanRead(10)
    modifies reader
    ensures step == StreamAt(reader.buffer, old(reader.offset))
    ensures step.Read? ==> reader.offset == step.next
  {
    var tlvStreamId := reader.ReadUint16();
    var originalNetworkId := reader.ReadUint16();
    var f := reader.ReadUint16();
    var tlvStreamDescriptorsLength := f % 0x1000;
    if !reader.CanRead(tlvStreamDescriptorsLength) {
      return Undef;
    }
    var descriptors := ReadDescriptorsIn(reader, tlvStreamDescriptorsLength);
    step := Read(TLVStream(tlvStreamId, originalNetworkId, descriptors), reader.offset);
  }

  // ---------------------------------------------------------------------
  // AMT

  /** Address width of a service: 4 bytes for IPv4, 16 for IPv6. */
  function AddressWidth(ipv6: bool): nat
  {
    if ipv6 then 16 else 4
  }

  /** The two addresses and their masks at p. */
  function ServiceIPAt(b: bytes, p: nat, ipv6: bool): (ip: ServiceIPInformation)
    requires p + 2 * AddressWidth(ipv6) + 2 <= |b|
    ensures ip.ipv6 == ipv6
    ensures |ip.sourceAddress| == |ip.destAddress| == AddressWidth(ipv6)
    ensures ip.sourceAddressMask < 0x100 && ip.destAddressMask < 0x100
  {
    var w := AddressWidth(ipv6);
    ServiceIPInformation(ipv6, b[p..p + w], b[p + w], b[p + w + 1..p + 1 + 2 * w], b[p + 1 + 2 * w])
  }

  /**
   * One service of the AMT at o: id, version bit and 10-bit loop length,
   * the addresses and masks, then the rest of the loop as private data.
   * The private data length is the loop length less the address part, and
   * a negative one moves the cursor back and reads nothing.
   */
  function AMTServiceAt(b: bytes, o: nat): (r: Step<AMTService>)
    ensures r.Undef? || r.Read?
    ensures |b| < o + 4 ==> r.Undef?
    ensures r.Read? ==> |b| >= o + 4 && r.next == o + 4 + U16(b, o + 2) % 0x400
  {
    if |b| < o + 2 + 2 then Undef
    else AMTServiceBody(b, o + 4, U16(b, o), U16(b, o + 2))
  }

  /** The part of a service after its id and its flags-and-length field h, from p. */
  function AMTServiceBody(b: bytes, p: nat, serviceId: nat, h: nat): (r: Step<AMTService>)
    ensures r.Undef? || r.Read?
    ensures r.Read? ==> r.next == p + h % 0x400 && r.value.serviceId == serviceId
  {
    var ipv6 := h >= 0x8000;
    var w := AddressWidth(ipv6);
    var q := p + 2 * w + 2;
    if |b| < q then Undef
    else
      var n := h % 0x400 - (2 * w + 2);
      if |b| < q + n then Undef
      else AMTServiceRead(serviceId, ServiceIPAt(b, p, ipv6), Js.Slice(b, q, q + n), q + n)
  }

  function AMTServiceRead(serviceId: nat, ip: ServiceIPInformation, privateData: bytes, next: int): (r: Step<AMTService>)
    requires next >= 0
    ensures r.Read? && r.next == next && r.value.serviceId == serviceId
  {
    Read(AMTService(serviceId, ip, privateData), next)
  }

  /**
   * The version bit picks 4- or 16-byte addresses, and the private data is
   * what the loop length leaves after them, none when it leaves nothing.
   */
  lemma {:induction false} AMTServiceShape(b: bytes, o: nat)
    requires AMTServiceAt(b, o).Read?
    ensures var s := AMTServiceAt(b, o).value;
            var w := AddressWidth(U16(b, o + 2) >= 0x8000);
            s.serviceId == U16(b, o) && (s.ip.ipv6 <==> U16(b, o + 2) >= 0x8000)
            && |s.ip.sourceAddress| == |s.ip.destAddress| == w
            && |s.privateData| == if U16(b, o + 2) % 0x400 < 2 * w + 2 then 0 else U16(b, o + 2) % 0x400 - (2 * w + 2)
  {
  }

  /** A shortfall in the addresses or the private data leaves the service undefined. */
  lemma {:induction false} AMTServiceShortfall(b: bytes, o: nat)
    requires |b| >= o + 4
    ensures var w := AddressWidth(U16(b, o + 2) >= 0x8000);
            AMTServiceAt(b, o).Undef? <==> |b| < o + 4 + 2 * w + 2 || |b| < o + 4 + U16(b, o + 2) % 0x400
  {
  }

  /** The last k services of the AMT loop, from o; any shortfall undoes the table. */
  function AMTServices(b: bytes, o: nat, k: nat): (r: Decoded<seq<AMTService>>)
    ensures !r.Thrown?
    ensures r.Ok? ==> |r.value| == k
    decreases k
  {
    if k == 0 then Ok([])
    else
      match AMTServiceAt(b, o)
      case Read(s, next) => Chain([s], AMTServices(b, next, k - 1))
      case _ => Undefined
  }

  /** `readAMT` from offset 5: the section header as in the NIT, then a 10-bit service count and the services. */
  function AMTOf(b: bytes): (r: Decoded<TLVSITable>)
    ensures !r.Thrown?
    ensures |b| >= 12 && U16(b, 5) < 0x8000 ==> r.Undefined?
    ensures r.Ok? ==> r.value.AMT? && |b| >= 14 && r.value.tableIdExtension == U16(b, 7)
                      && r.value.header == TLVHeaderAt(b, 9)
                      && AMTServices(b, 14, U16(b, 12) / 0x40) == Ok(r.value.services)
  {
    if |b| < 5 + 2 + 2 + 1 + 1 + 1 then Undefined
    else
      var h := U16(b, 5);
      if h < 0x8000 || |b| < 7 + h % 0x1000 || |b| < 14 then Undefined
      else
        var services :- AMTServices(b, 14, U16(b, 12) / 0x40);
        Ok(AMT(U16(b, 7), TLVHeaderAt(b, 9), services))
  }

  ghost predicate WellFormedService(s: AMTService)
  {
    && s.serviceId < 0x1_0000 && s.ip.sourceAddressMask < 0x100 && s.ip.destAddressMask < 0x100
    && |s.ip.sourceAddress| == |s.ip.destAddress| == AddressWidth(s.ip.ipv6)
    && 2 * AddressWidth(s.ip.ipv6) + 2 + |s.privateData| < 0x400
  }

  ghost function EncodeIP(ip: ServiceIPInformation): (r: bytes)
    requires ip.sourceAddressMask < 0x100 && ip.destAddressMask < 0x100
  {
    ip.sourceAddress + [ip.sourceAddressMask as byte] + ip.destAddress + [ip.destAddressMask as byte]
  }

  /** The bytes that encode one service, as the AMT carries it. */
  ghost function EncodeAMTService(s: AMTService): (r: bytes)
    requires WellFormedService(s)
  {
    var h := (if s.ip.ipv6 then 0x8000 else 0) + 2 * AddressWidth(s.ip.ipv6) + 2 + |s.privateData|;
    Be16(s.serviceId) + Be16(h) + EncodeIP(s.ip) + s.privateData
  }

  /** Every well-formed service reads back from its encoding, wherever it sits. */
  lemma {:induction false} AMTServiceRoundTrip(prefix: bytes, s: AMTService, suffix: bytes)
    requires WellFormedService(s)
    ensures AMTServiceAt(prefix + EncodeAMTService(s) + suffix, |prefix|)
            == Read(s, |prefix| + |EncodeAMTService(s)|)
  {
    AtMiddle(prefix, EncodeAMTService(s), suffix);
    AMTServiceWindow(prefix + EncodeAMTService(s) + suffix, |prefix|, s);
  }

  lemma {:induction false} AMTServiceWindow(b: bytes, o: nat, s: AMTService)
    requires WellFormedService(s) && At(b, o, EncodeAMTService(s))
    ensures AMTServiceAt(b, o) == Read(s, o + |EncodeAMTService(s)|)
  {
    var w := AddressWidth(s.ip.ipv6);
    var h := (if s.ip.ipv6 then 0x8000 else 0) + 2 * w + 2 + |s.privateData|;
    var r2 := EncodeIP(s.ip) + s.privateData;
    assert EncodeAMTService(s) == Be16(s.serviceId) + Be16(h) + r2;
    HeaderWindow(b, o, s.serviceId, h, r2);
    ServiceBodyWindow(b, o + 4, s, h);
  }

  lemma {:induction false} HeaderWindow(b: bytes, o: nat, x: nat, y: nat, r: bytes)
    requires x < 0x1_0000 && y < 0x1_0000 && At(b, o, Be16(x) + Be16(y) + r)
    ensures |b| >= o + 4 && U16(b, o) == x && U16(b, o + 2) == y && At(b, o + 4, r)
  {
    AtSplit(b, o, Be16(x) + Be16(y), r);
    AtSplit(b, o, Be16(x), Be16(y));
    AtU16(b, o, Be16(x));
    AtU16(b, o + 2, Be16(y));
  }

  lemma {:induction false} ServiceBodyWindow(b: bytes, p: nat, s: AMTService, h: nat)
    requires WellFormedService(s)
    requires h == (if s.ip.ipv6 then 0x8000 else 0) + 2 * AddressWidth(s.ip.ipv6) + 2 + |s.privateData|
    requires At(b, p, EncodeIP(s.ip) + s.privateData)
    ensures AMTServiceBody(b, p, s.serviceId, h) == Read(s, p + |EncodeIP(s.ip)| + |s.privateData|)
  {
    var x := 2 * AddressWidth(s.ip.ipv6) + 2 + |s.privateData|;
    AtSplit(b, p, EncodeIP(s.ip), s.privateData);
    IPWindow(b, p, s.ip);
    AtSlice(b, p + |EncodeIP(s.ip)|, s.privateData);
    DivExact(if s.ip.ipv6 then 32 else 0, x, 0x400);
    assert h % 0x400 == x && (h >= 0x8000 <==> s.ip.ipv6);
  }

  lemma {:induction false} IPWindow(b: bytes, p: nat, ip: ServiceIPInformation)
    requires ip.sourceAddressMask < 0x100 && ip.destAddressMask < 0x100
    requires |ip.sourceAddress| == |ip.destAddress| == AddressWidth(ip.ipv6)
    requires At(b, p, EncodeIP(ip))
    ensures |EncodeIP(ip)| == 2 * AddressWidth(ip.ipv6) + 2
    ensures ServiceIPAt(b, p, ip.ipv6) == ip
  {
    var w := AddressWidth(ip.ipv6);
    var sm: bytes := [ip.sourceAddressMask as byte];
    var dm: bytes := [ip.destAddressMask as byte];
    var r3 := sm + (ip.destAddress + dm);
    assert EncodeIP(ip) == ip.sourceAddress + r3;
    AtSplitOf(b, p, EncodeIP(ip), ip.sourceAddress, r3);
    AtSlice(b, p, ip.sourceAddress);
    AtSplitOf(b, p + w, r3, sm, ip.destAddress + dm);
    assert b[p + w] == sm[0];
    AtSplit(b, p + w + 1, ip.destAddress, dm);
    AtSlice(b, p + w + 1, ip.destAddress);
    assert b[p + 1 + 2 * w] == dm[0];
  }

  method ReadAMT(reader: BinaryReader) returns (r: Decoded<TLVSITable>)
    requires reader.offset == 5
    modifies reader
    ensures r == AMTOf(reader.buffer)
  {
    if !reader.CanRead(2 + 2 + 1 + 1 + 1) {
      return Undefined;
    }
    var h := reader.ReadUint16();
    var sectionSyntaxIndicator := h >= 0x8000;
    if !sectionSyntaxIndicator {
      return Undefined;
    }
    var sectionLength := h % 0x1000;
    if !reader.CanRead(sectionLength) {
      return Undefined;
    }
    var tableIdExtension := reader.ReadUint16();
    var header := ReadTLVHeader(reader);
    if !reader.CanRead(2) {
      return Undefined;
    }
    var f := reader.ReadUint16();
    // `(f & 0b1111111111000000) >> 6`
    var numOfServiceId := f / 0x40;
    var services :- ReadAMTServices(reader, numOfServiceId);
    r := Ok(AMT(tableIdExtension, header, services));
  }

  method ReadAMTServices(reader: BinaryReader, n: nat) returns (r: Decoded<seq<AMTService>>)
    requires reader.offset >= 0
    modifies reader
    ensures r == AMTServices(reader.buffer, old(reader.offset), n)
  {
    ghost var b, whole := reader.buffer, AMTServices(reader.buffer, reader.offset, n);
    var services: seq<AMTService> := [];
    ChainEmpty(whole);
    ghost var left := n;
    for i := 0 to n
      invariant left == n - i && reader.buffer == b && reader.offset >= 0
      invariant Chain(services, AMTServicesLeft(b, reader.offset, left)) == whole
    {
      var step := ReadNextAMTService(reader, left);
      if !step.Read? {
        return Undefined;
      }
      ChainAppend(services, step.value, AMTServicesLeft(b, reader.offset, left - 1));
      services := services + [step.value];
      left := left - 1;
    }
    ChainDone(services);
    r := Ok(services);
  }

  /** The services still to read from the reader's offset. */
  function AMTServicesLeft(b: bytes, o: int, left: nat): Decoded<seq<AMTService>>
  {
    if o >= 0 then AMTServices(b, o, left) else Undefined
  }

  /** One pass of the service loop with k services still to read, stated against the list it belongs to. */
  method ReadNextAMTService(reader: BinaryReader, ghost k: nat) returns (step: Step<AMTService>)
    requires reader.offset >= 0 && k > 0
    modifies reader
    ensures !step.Read? ==> AMTServicesLeft(reader.buffer, old(reader.offset), k) == Undefined
    ensures step.Read? ==> reader.offset >= 0
    ensures step.Read? ==>
      AMTServicesLeft(reader.buffer, old(reader.offset), k) == Chain([step.value], AMTServicesLeft(reader.buffer, reader.offset, k - 1))
  {
    step := ReadAMTService(reader);
  }

  method ReadAMTService(reader: BinaryReader) returns (step: Step<AMTService>)
    requires reader.offset >= 0
    modifies reader
    ensures step == AMTServiceAt(reader.buffer, old(reader.offset))
    ensures step.Read? ==> reader.offset == step.next
  {
    if !reader.CanRead(2 + 2) {
      return Undef;
    }
    var serviceId := reader.ReadUint16();
    var h := reader.ReadUint16();
    step := ReadAMTServiceBody(reader, serviceId, h);
  }

  method ReadAMTServiceBody(reader: BinaryReader, serviceId: nat, h: nat) returns (step: Step<AMTService>)
    requires reader.offset >= 0
    modifies reader
    ensures step == AMTServiceBody(reader.buffer, old(reader.offset), serviceId, h)
    ensures step.Read? ==> reader.offset == step.next
  {
    var ipv6 := h >= 0x8000;
    var serviceLoopLength: int := h % 0x400;
    var w := AddressWidth(ipv6);
    if !reader.CanRead(w + 1 + w + 1) {
      return Undef;
    }
    var ip := ReadServiceIP(reader, ipv6);
    var privateLength := serviceLoopLength - (w + 1 + w + 1);
    if !reader.CanRead(privateLength) {
      return Undef;
    }
    var privateData := reader.Slice(privateLength);
    step := AMTServiceRead(serviceId, ip, privateData, reader.offset);
  }

  method ReadServiceIP(reader: BinaryReader, ipv6: bool) returns (ip: ServiceIPInformation)
    requires reader.offset >= 0 && reader.CanRead(2 * AddressWidth(ipv6) + 2)
    modifies reader
    ensures reader.offset == old(reader.offset) + 2 * AddressWidth(ipv6) + 2
    ensures ip == ServiceIPAt(reader.buffer, old(reader.offset), ipv6)
  {
    var w := AddressWidth(ipv6);
    var sourceAddress := reader.Slice(w);
    var sourceAddressMask := reader.ReadUint8();
    var destAddress := reader.Slice(w);
    var destAddressMask := reader.ReadUint8();
    ip := ServiceIPInformation(ipv6, sourceAddress, sourceAddressMask, destAddress, destAddressMask);
  }

  // ---------------------------------------------------------------------
  // readTLVSI

  /** `readTLVSI`: the table id after the TLV header picks the reader. */
  function TLVSIOf(tlvPacket: bytes): (r: Decoded<TLVSITable>)
    ensures |tlvPacket| <= TLV_HEADER_SIZE ==> r.Undefined?
    ensures r.Ok? && r.value.NIT? ==> tlvPacket[4] == (if r.value.actual then TLV_SI_NIT_ACTUAL else TLV_SI_NIT_OTHER)
    ensures r.Ok? && r.value.AMT? ==> tlvPacket[4] == TLV_SI_AMT
    ensures (|tlvPacket| > 4 && tlvPacket[4] != TLV_SI_NIT_ACTUAL && tlvPacket[4] != TLV_SI_NIT_OTHER
             && tlvPacket[4] != TLV_SI_AMT) ==> r.Undefined?
  {
    if |tlvPacket| < TLV_HEADER_SIZE + 1 then Undefined
    else if tlvPacket[4] == TLV_SI_NIT_ACTUAL then NITOf(tlvPacket, true)
    else if tlvPacket[4] == TLV_SI_NIT_OTHER then NITOf(tlvPacket, false)
    else if tlvPacket[4] == TLV_SI_AMT then AMTOf(tlvPacket)
    else Undefined
  }

  method ReadTLVSI(tlvPacket: bytes) returns (r: Decoded<TLVSITable>)
    ensures r == TLVSIOf(tlvPacket)
  {
    var reader := new BinaryReader(tlvPacket, TLV_HEADER_SIZE);
    if !reader.CanRead(1) {
      return Undefined;
    }
    var tableId := reader.ReadUint8();
    if tableId == TLV_SI_NIT_ACTUAL {
      r := ReadNIT(reader, true);
    } else if tableId == TLV_SI_NIT_OTHER {
      r := ReadNIT(reader, false);
    } else if tableId == TLV_SI_AMT {
      r := ReadAMT(reader);
    } else {
      r := Undefined;
    }
  }
}
