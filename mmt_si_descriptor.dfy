// `readMMTSIDescriptors` and the per-tag readers of src/mmt-si-descriptor.ts.
// The loop frames each descriptor by a 16-bit tag and a length field whose
// width depends on the tag, then hands the body to the reader for that tag.
module MmtSiDescriptor {
  import opened Js
  import opened Decoding
  import opened Utils
  import opened LocationInfo
  import opened SiDescriptor

  const MMT_SI_ACCESS_CONTROL_DESCRIPTOR := 0x8004
  const MMT_SI_CONTENT_COPY_CONTROL_DESCRIPTOR := 0x8038
  const MMT_SI_EMERGENCY_INFORMATION_DESCRIPTOR := 0x8007
  const MMT_SI_EMERGENCY_NEWS_DESCRIPTOR := 0x8040
  const MMT_SI_CONTENT_USAGE_CONTROL_DESCRIPTOR := 0x8039
  const MMT_SI_MH_PARENTAL_RATING_DESCRIPTOR := 0x8013
  const MMT_SI_APPLICATION_SERVICE_DESCRIPTOR := 0x8034
  const MMT_SI_ASSET_GROUP_DESCRIPTOR := 0x8000
  const MMT_SI_MPU_TIMESTAMP_DESCRIPTOR := 0x0001
  const MMT_SI_MH_HIERARCHY_DESCRIPTOR := 0x8037
  const MMT_SI_VIDEO_COMPONENT_DESCRIPTOR := 0x8010
  const MMT_SI_MH_STREAM_IDENTIFIER_DESCRIPTOR := 0x8011
  const MMT_SI_MH_AUDIO_COMPONENT_DESCRIPTOR := 0x8014
  const MMT_SI_MH_TARGET_REGION_DESCRIPTOR := 0x8015
  const MMT_SI_MH_DATA_COMPONENT_DESCRIPTOR := 0x8020
  const MMT_SI_MPU_EXTENDED_TIMESTAMP_DESCRIPTOR := 0x8026
  const MMT_SI_MH_EVENT_GROUP_DESCRIPTOR := 0x800c
  const MMT_SI_MH_SHORT_EVENT_DESCRIPTOR := 0xf001
  const MMT_SI_MH_EXTENDED_EVENT_DESCRIPTOR := 0xf002
  const MMT_SI_MH_CONTENT_DESCRIPTOR := 0x8012
  const MMT_SI_MH_SERIES_DESCRIPTOR := 0x8016
  const MMT_SI_MULTIMEDIA_SERVICE_INFO_DESCRIPTOR := 0x803f
  const MMT_SI_MH_SERVICE_DESCRIPTOR := 0x8019
  const MMT_SI_MH_CA_CONTRACT_INFO_DESCRIPTOR := 0x8041
  const MMT_SI_MH_LOGO_TRANSMISSION_DESCRIPTOR := 0x8025
  const MMT_SI_MH_SI_PARAMETER_DESCRIPTOR := 0x8017
  const MMT_SI_MH_BROADCASTER_NAME_DESCRIPTOR := 0x8018
  const MMT_SI_MH_SERVICE_LIST_DESCRIPTOR := 0x800d
  const MMT_SI_RELATED_BROADCASTER_DESCRIPTOR := 0x803e
  const MMT_SI_MH_LOCAL_TIME_OFFSET_DESCRIPTOR := 0x8023
  const MMT_SI_SCRAMBLER_DESCRIPTOR := 0x8005
  const MMT_SI_MH_CA_SERVICE_DESCRIPTOR := 0x8042
  const MMT_SI_MH_APPLICATION_DESCRIPTOR := 0x8029
  const MMT_SI_MH_TRANSPORT_PROTOCOL_DESCRIPTOR := 0x802a
  const MMT_SI_MH_SIMPLE_APPLICATION_LOCATION_DESCRIPTOR := 0x802b
  const MMT_SI_MH_APPLICATION_BOUNDARY_AND_PERMISSION_DESCRIPTOR := 0x802c
  const MMT_SI_UTC_NPT_REFERENCE_DESCRIPTOR := 0x8021
  const MMT_SI_EVENT_MESSAGE_DESCRIPTOR := 0xf003
  const MMT_SI_MPU_NODE_DESCRIPTOR := 0x8035

  const EVENT_GROUP_TYPE_RELAY_TO_OTHER_NETWORK := 0x4
  const EVENT_GROUP_TYPE_MOVEMENT_FROM_OTHER_NETWORK := 0x5
  const MH_LOGO_TRANSMISSION_TYPE_DIRECT := 1
  const MH_LOGO_TRANSMISSION_TYPE_INDIRECT := 2

  /** The tags whose readers this model does not decode field by field. */
  predicate UnparsedTag(tag: nat)
  {
    tag in {MMT_SI_APPLICATION_SERVICE_DESCRIPTOR, MMT_SI_VIDEO_COMPONENT_DESCRIPTOR,
            MMT_SI_MH_STREAM_IDENTIFIER_DESCRIPTOR, MMT_SI_MH_AUDIO_COMPONENT_DESCRIPTOR,
            MMT_SI_MH_TARGET_REGION_DESCRIPTOR, MMT_SI_MH_DATA_COMPONENT_DESCRIPTOR,
            MMT_SI_MPU_EXTENDED_TIMESTAMP_DESCRIPTOR, MMT_SI_MH_SHORT_EVENT_DESCRIPTOR,
            MMT_SI_MH_EXTENDED_EVENT_DESCRIPTOR, MMT_SI_MH_CONTENT_DESCRIPTOR,
            MMT_SI_MH_SERIES_DESCRIPTOR, MMT_SI_MULTIMEDIA_SERVICE_INFO_DESCRIPTOR,
            MMT_SI_MH_SERVICE_DESCRIPTOR, MMT_SI_MH_CA_CONTRACT_INFO_DESCRIPTOR,
            MMT_SI_MH_SI_PARAMETER_DESCRIPTOR, MMT_SI_MH_BROADCASTER_NAME_DESCRIPTOR,
            MMT_SI_MH_SERVICE_LIST_DESCRIPTOR, MMT_SI_RELATED_BROADCASTER_DESCRIPTOR,
            MMT_SI_MH_LOCAL_TIME_OFFSET_DESCRIPTOR, MMT_SI_MH_CA_SERVICE_DESCRIPTOR,
            MMT_SI_MH_APPLICATION_DESCRIPTOR, MMT_SI_MH_TRANSPORT_PROTOCOL_DESCRIPTOR,
            MMT_SI_MH_SIMPLE_APPLICATION_LOCATION_DESCRIPTOR,
            MMT_SI_MH_APPLICATION_BOUNDARY_AND_PERMISSION_DESCRIPTOR,
            MMT_SI_UTC_NPT_REFERENCE_DESCRIPTOR}
  }

  datatype ComponentControl = ComponentControl(
    componentTag: nat,
    digitalRecordingControlData: nat,
    maximumBitRate: Option<nat>)

  datatype ParentalRating = ParentalRating(countryCode: nat, rating: nat)

  datatype MPUTimestampEntry = MPUTimestampEntry(mpuSequenceNumber: nat, mpuPresentationTime: NTP64Timestamp)

  datatype EventGroupEvent = EventGroupEvent(serviceId: nat, eventId: nat)

  datatype OtherNetworkEvent = OtherNetworkEvent(originalNetworkId: nat, tlvStreamId: nat, serviceId: nat, eventId: nat)

  datatype LogoEntry = LogoEntry(logoType: nat, startSectionNumber: nat, numOfSections: nat)

  datatype LogoTransmission =
    | Direct(logoId: nat, logoVersion: nat, downloadDataId: nat, logoList: seq<LogoEntry>)
    | Indirect(logoId: nat)

  datatype EventMessageTime =
    | Immediate
    | UTC(eventMessageUTCTime: NTP64Timestamp)
    | NPT(eventMessageNPT: NTP64Timestamp)
    | Relative(eventMessageRelativeTime: NTP64Timestamp)
    | UTCStreamTime(eventMessageUTCTime: NTP64Timestamp)

  datatype MMTSIDescriptor =
    | AccessControl(caSystemId: nat, locationInfo: MMTGeneralLocationInfo, privateData: bytes)
    | ContentCopyControl(digitalRecordingControlData: nat, maximumBitRate: Option<nat>,
                         componentControls: Option<seq<ComponentControl>>)
    | EmergencyInformation(services: seq<EmergencyInformationService>)
    | EmergencyNews(transmitTimestamp: NTP64Timestamp)
    | ContentUsageControl(remoteViewMode: bool, copyRestrictionMode: bool, imageConstraintToken: bool,
                          retentionMode: bool, retentionState: nat, encryptionMode: bool)
    | MHParentalRating(ratings: seq<ParentalRating>)
    | AssetGroup(groupIdentification: nat, selectionLevel: nat)
    | MPUTimestamp(timestamps: seq<MPUTimestampEntry>)
    | MHHierarchy(temporalScalabilityFlag: bool, spatialScalabilityFlag: bool, qualityScalabilityFlag: bool,
                  hierarchyType: nat, hierarchyLayerIndex: nat, trefPresentFlag: bool,
                  hierarchyEmbeddedLayerIndex: nat, hierarchyChannel: nat)
    | MHEventGroup(groupType: nat, events: seq<EventGroupEvent>,
                   otherNetworkEvents: Option<seq<OtherNetworkEvent>>, groupPrivateData: Option<bytes>)
    | MHLogoTransmission(logo: LogoTransmission)
    | Scrambler(layerType: nat, scrambleSystemId: nat, privateData: bytes)
    | EventMessage(eventMessageGroupId: nat, time: EventMessageTime, eventMessageType: nat,
                   eventMessageId: nat, privateData: bytes)
    | MPUNode(nodeTag: nat)
    | Unparsed(tag: nat, body: bytes)

  // ---------------------------------------------------------------------
  // Framing

  /** Width of the length field: 2 for 0x4000-0x6FFF and from 0xF000, 4 for 0x7000-0x7FFF, else 1. */
  function LengthBytes(tag: nat): (w: nat)
  {
    if (0x4000 <= tag <= 0x6fff) || tag >= 0xf000 then 2
    else if 0x7000 <= tag <= 0x7fff then 4
    else 1
  }

  /** The length field of width w at p. */
  function LengthAt(b: bytes, p: nat, w: nat): nat
    requires w in {1, 2, 4} && p + w <= |b|
  {
    if w == 4 then U32(b, p) else if w == 2 then U16(b, p) else b[p]
  }

  /** A descriptor as the loop cuts it out: its tag and its body. */
  datatype Frame = Frame(tag: nat, body: bytes)

  /** One turn of the loop at o: the end of the list, the exception, or a frame and where the next starts. */
  datatype FrameStep = Stop | LengthThrows | Next(frame: Frame, next: nat)

  /**
   * The loop's framing at o.  It runs while three bytes are left, so a 2- or
   * 4-byte length field may not fit: the DataView read then throws.  A body
   * longer than what is left ends the list.
   */
  function FrameAt(b: bytes, o: nat): (r: FrameStep)
    ensures r.LengthThrows? <==> o + 3 <= |b| && |b| < o + 2 + LengthBytes(U16(b, o))
    ensures r.Stop? <==> |b| < o + 3
                         || (o + 2 + LengthBytes(U16(b, o)) <= |b|
                             && |b| < o + 2 + LengthBytes(U16(b, o)) + LengthAt(b, o + 2, LengthBytes(U16(b, o))))
    ensures r.Next? ==> var w := LengthBytes(U16(b, o));
                        o + 3 <= r.next <= |b| && r.frame.tag == U16(b, o) && o + 2 + w <= |b|
                        && |r.frame.body| == LengthAt(b, o + 2, w) && r.next == o + 2 + w + |r.frame.body|
                        && r.frame.body == b[o + 2 + w..r.next]
  {
    if |b| < 2 + 1 + o then Stop
    else
      var tag := U16(b, o);
      var w := LengthBytes(tag);
      if |b| < o + 2 + w then LengthThrows
      else
        var length := LengthAt(b, o + 2, w);
        var p := o + 2 + w;
        if |b| < length + p then Stop
        else Next(Frame(tag, b[p..p + length]), p + length)
  }

  /** The frames of the list from o, with the per-tag readers left out. */
  function Frames(b: bytes, o: nat): (r: Decoded<seq<Frame>>)
    ensures !r.Undefined?
    decreases |b| - o
  {
    match FrameAt(b, o)
    case Stop => Ok([])
    case LengthThrows => Thrown
    case Next(f, next) => Chain([f], Frames(b, next))
  }

  /**
   * `readMMTSIDescriptors` from o: each frame's body goes to its tag's
   * reader; an unknown tag is skipped (`continue`), an undefined result is
   * dropped, and an exception in a reader ends the whole list.
   */
  function DescriptorsFrom(b: bytes, o: nat): (r: Decoded<seq<MMTSIDescriptor>>)
    ensures !r.Undefined?
    decreases |b| - o, 0
  {
    match FrameAt(b, o)
    case Stop => Ok([])
    case LengthThrows => Thrown
    case Next(f, next) => DescriptorsAfter(b, f, next)
  }

  /** The reader's result on frame f followed by the rest of the list from next. */
  function DescriptorsAfter(b: bytes, f: Frame, next: nat): (r: Decoded<seq<MMTSIDescriptor>>)
    requires next <= |b|
    ensures !r.Undefined?
    decreases |b| - next, 1
  {
    match DescriptorOf(f.tag, f.body)
    case Thrown => Thrown
    case Undefined => DescriptorsFrom(b, next)
    case Ok(d) => Chain([d], DescriptorsFrom(b, next))
  }

  /** The descriptors the readers make of a list of frames, in order. */
  function Collect(fs: seq<Frame>): (r: Decoded<seq<MMTSIDescriptor>>)
    ensures !r.Undefined?
  {
    if fs == [] then Ok([])
    else
      match DescriptorOf(fs[0].tag, fs[0].body)
      case Thrown => Thrown
      case Undefined => Collect(fs[1..])
      case Ok(d) => Chain([d], Collect(fs[1..]))
  }

  /** The loop is framing followed by the per-tag readers, keeping order and dropping undefined results. */
  lemma {:induction false} DescriptorsFromFrames(b: bytes, o: nat)
    ensures DescriptorsFrom(b, o) == (if Frames(b, o).Ok? then Collect(Frames(b, o).value) else Thrown)
    decreases |b| - o
  {
    match FrameAt(b, o)
    case Stop =>
    case LengthThrows =>
    case Next(f, next) =>
      DescriptorsFromFrames(b, next);
      if Frames(b, next).Ok? {
        assert Frames(b, o).value == [f] + Frames(b, next).value;
        assert Frames(b, o).value[1..] == Frames(b, next).value;
      }
  }

  /** The loop, started at o, goes from frame to frame as far as e. */
  ghost predicate Reaches(b: bytes, o: nat, e: nat)
    decreases |b| - o
  {
    o == e || (FrameAt(b, o).Next? && Reaches(b, FrameAt(b, o).next, e))
  }

  /**
   * A length field that does not fit, at any frame the loop reaches, throws
   * out of the whole list, whatever the readers made of the frames before.
   */
  lemma {:induction false} ReachedLengthThrows(b: bytes, o: nat, e: nat)
    requires Reaches(b, o, e) && FrameAt(b, e).LengthThrows?
    ensures DescriptorsFrom(b, o) == Thrown
    decreases |b| - o
  {
    if o != e {
      var next := FrameAt(b, o).next;
      ReachedLengthThrows(b, next, e);
      assert DescriptorsFrom(b, o) == DescriptorsAfter(b, FrameAt(b, o).frame, next);
    }
  }

  /** With three bytes left and a tag whose length field is wider, the loop throws. */
  lemma {:induction false} ShortLengthFieldThrows()
    ensures DescriptorsFrom([0xf0, 0x03, 0x00], 0) == Thrown
    ensures DescriptorsFrom([0x70, 0x00, 0x00, 0x00, 0x00], 0) == Thrown
  {
    assert FrameAt([0xf0, 0x03, 0x00], 0) == LengthThrows;
    assert FrameAt([0x70, 0x00, 0x00, 0x00, 0x00], 0) == LengthThrows;
  }

  /** A tag and body the wire form can carry: the body length fits the tag's length field. */
  predicate WellFormedFrame(f: Frame)
  {
    f.tag < 0x1_0000
    && |f.body| < if LengthBytes(f.tag) == 4 then 0x1_0000_0000 else if LengthBytes(f.tag) == 2 then 0x1_0000 else 0x100
  }

  ghost function EncodeLength(w: nat, n: nat): (r: bytes)
    requires w in {1, 2, 4} && n < if w == 4 then 0x1_0000_0000 else if w == 2 then 0x1_0000 else 0x100
    ensures |r| == w
  {
    if w == 4 then Be32(n) else if w == 2 then Be16(n) else [n as byte]
  }

  /** One descriptor on the wire: tag, length field, body. */
  ghost function EncodeFrame(f: Frame): (r: bytes)
    requires WellFormedFrame(f)
    ensures |r| == 2 + LengthBytes(f.tag) + |f.body|
  {
    Be16(f.tag) + EncodeLength(LengthBytes(f.tag), |f.body|) + f.body
  }

  ghost function EncodeFrames(fs: seq<Frame>): bytes
    requires forall i :: 0 <= i < |fs| ==> WellFormedFrame(fs[i])
  {
    if fs == [] then [] else EncodeFrame(fs[0]) + EncodeFrames(fs[1..])
  }

  /** An encoded frame found at o is cut out again. */
  lemma {:induction false} FrameWindow(b: bytes, o: nat, f: Frame)
    requires WellFormedFrame(f)
    requires FrameEncodedAt(b, o, f)
    ensures FrameAt(b, o) == Next(f, o + |EncodeFrame(f)|)
  {
    var w := LengthBytes(f.tag);
    var t := Be16(f.tag);
    var l := EncodeLength(w, |f.body|);
    SplitWindow(b, o, t + l, f.body);
    SplitWindow(b, o, t, l);
    U16Window(b, o, t);
    if w == 4 {
      U32Window(b, o + 2, l);
    } else if w == 2 {
      U16Window(b, o + 2, l);
    } else {
      assert b[o + 2] == b[o + 2..o + 3][0];
    }
  }

  /** The wire form of f sits in b at o. */
  ghost predicate FrameEncodedAt(b: bytes, o: nat, f: Frame)
    requires WellFormedFrame(f)
  {
    o + |EncodeFrame(f)| <= |b| && b[o..o + |EncodeFrame(f)|] == EncodeFrame(f)
  }

  /** The frames, one after another, end exactly at the end of b. */
  ghost predicate FramesEncodedAt(b: bytes, o: nat, fs: seq<Frame>)
    requires forall i :: 0 <= i < |fs| ==> WellFormedFrame(fs[i])
    decreases |fs|
  {
    if fs == [] then o == |b|
    else
      FrameEncodedAt(b, o, fs[0]) && FramesEncodedAt(b, o + |EncodeFrame(fs[0])|, fs[1..])
  }

  lemma {:induction false} FramesEncodedAtOf(b: bytes, o: nat, fs: seq<Frame>)
    requires forall i :: 0 <= i < |fs| ==> WellFormedFrame(fs[i])
    requires o <= |b| && b[o..] == EncodeFrames(fs)
    ensures FramesEncodedAt(b, o, fs)
    decreases |fs|
  {
    if fs != [] {
      var e := EncodeFrame(fs[0]);
      assert b[o..] == e + EncodeFrames(fs[1..]);
      assert b[o..o + |e|] == b[o..][..|e|];
      assert b[o + |e|..] == b[o..][|e|..];
      FramesEncodedAtOf(b, o + |e|, fs[1..]);
    }
  }

  lemma {:induction false} FramesOfEncoded(b: bytes, o: nat, fs: seq<Frame>)
    requires forall i :: 0 <= i < |fs| ==> WellFormedFrame(fs[i])
    requires FramesEncodedAt(b, o, fs)
    ensures Frames(b, o) == Ok(fs)
    decreases |fs|
  {
    if fs == [] {
    } else {
      var tail := fs[1..];
      assert [fs[0]] + tail == fs;
      FramesOfEncoded(b, o + |EncodeFrame(fs[0])|, tail);
      FramesStep(b, o, fs[0], tail);
    }
  }

  /** One encoded frame in front of a list that reads back. */
  lemma {:induction false} FramesStep(b: bytes, o: nat, f: Frame, fs: seq<Frame>)
    requires WellFormedFrame(f)
    requires FrameEncodedAt(b, o, f)
    requires Frames(b, o + |EncodeFrame(f)|) == Ok(fs)
    ensures Frames(b, o) == Ok([f] + fs)
  {
    FrameWindow(b, o, f);
  }

  /** Framing a list of encoded descriptors gives the list back. */
  lemma {:induction false} FramesRoundTrip(fs: seq<Frame>)
    requires forall i :: 0 <= i < |fs| ==> WellFormedFrame(fs[i])
    ensures Frames(EncodeFrames(fs), 0) == Ok(fs)
  {
    var b := EncodeFrames(fs);
    assert b[0..] == b;
    FramesEncodedAtOf(b, 0, fs);
    FramesOfEncoded(b, 0, fs);
  }

  /** The descriptors of an encoded list are the readers' results on its bodies, in order. */
  lemma {:induction false} DescriptorsOfEncoded(fs: seq<Frame>)
    requires forall i :: 0 <= i < |fs| ==> WellFormedFrame(fs[i])
    ensures DescriptorsFrom(EncodeFrames(fs), 0) == Collect(fs)
  {
    FramesRoundTrip(fs);
    DescriptorsFromFrames(EncodeFrames(fs), 0);
  }

  /** Unknown tags and undefined results leave no trace; defined results keep their order. */
  lemma {:induction false} CollectSkips(fs: seq<Frame>, f: Frame)
    requires DescriptorOf(f.tag, f.body).Undefined?
    ensures Collect([f] + fs) == Collect(fs)
    ensures DescriptorOf(f.tag, f.body).Undefined? ==> Collect(fs + [f]) == Collect(fs)
    decreases |fs|
  {
    assert ([f] + fs)[1..] == fs;
    if fs != [] {
      assert (fs + [f])[0] == fs[0] && (fs + [f])[1..] == fs[1..] + [f];
      CollectSkips(fs[1..], f);
    } else {
      assert [f][1..] == [];
    }
  }

  // ---------------------------------------------------------------------
  // Tag dispatch

  /** The `switch` on the tag: the reader's result, or Undefined for an unknown tag. */
  function DescriptorOf(tag: nat, d: bytes): Decoded<MMTSIDescriptor>
  {
    if tag == MMT_SI_ACCESS_CONTROL_DESCRIPTOR then FromOption(AccessControlOf(d))
    else if tag == MMT_SI_CONTENT_COPY_CONTROL_DESCRIPTOR then ContentCopyControlOf(d)
    else if tag == MMT_SI_EMERGENCY_INFORMATION_DESCRIPTOR then Ok(EmergencyInformation(EmergencyServices(d, 0)))
    else if tag == MMT_SI_EMERGENCY_NEWS_DESCRIPTOR then FromOption(EmergencyNewsOf(d))
    else if tag == MMT_SI_CONTENT_USAGE_CONTROL_DESCRIPTOR then FromOption(ContentUsageControlOf(d))
    else if tag == MMT_SI_MH_PARENTAL_RATING_DESCRIPTOR then Ok(MHParentalRating(Ratings(d, 0)))
    else if tag == MMT_SI_ASSET_GROUP_DESCRIPTOR then FromOption(AssetGroupOf(d))
    else if tag == MMT_SI_MPU_TIMESTAMP_DESCRIPTOR then Ok(MPUTimestamp(Timestamps(d, 0)))
    else if tag == MMT_SI_MH_HIERARCHY_DESCRIPTOR then FromOption(HierarchyOf(d))
    else if tag == MMT_SI_MH_EVENT_GROUP_DESCRIPTOR then FromOption(EventGroupOf(d))
    else if tag == MMT_SI_MH_LOGO_TRANSMISSION_DESCRIPTOR then FromOption(LogoTransmissionOf(d))
    else if tag == MMT_SI_SCRAMBLER_DESCRIPTOR then FromOption(ScramblerOf(d))
    else if tag == MMT_SI_EVENT_MESSAGE_DESCRIPTOR then FromOption(EventMessageOf(d))
    else if tag == MMT_SI_MPU_NODE_DESCRIPTOR then FromOption(MPUNodeOf(d))
    else if UnparsedTag(tag) then Ok(Unparsed(tag, d))
    else Undefined
  }

  // ---------------------------------------------------------------------
  // Per-tag readers

  /** `readAccessControlDescriptor`: a CA system id, a location, the rest as private data. */
  function AccessControlOf(d: bytes): (r: Option<MMTSIDescriptor>)
    ensures r.Some? <==> |d| >= 2 && LocationInfoAt(d, 2).info.Some?
  {
    if |d| < 2 then None
    else
      var loc := LocationInfoAt(d, 2);
      if loc.info.None? then None
      else Some(AccessControl(U16(d, 0), loc.info.value, Js.Slice(d, loc.next, |d|)))
  }

  /** Every id, location and private data written out is read back. */
  lemma {:induction false} AccessControlRoundTrip(ca: nat, info: MMTGeneralLocationInfo, rest: bytes)
    requires ca < 0x1_0000 && WellFormed(info)
    ensures AccessControlOf(Be16(ca) + EncodeLocationInfo(info) + rest) == Some(AccessControl(ca, info, rest))
  {
    var d := Be16(ca) + EncodeLocationInfo(info) + rest;
    var e := EncodeLocationInfo(info);
    assert d[2..] == e + rest;
    LocationInfoRoundTrip(info, rest);
    LocationAfter(d, 2, e + rest);
    assert d[2 + |e|..] == rest;
    U16Shift([], Be16(ca), e + rest);
    assert [] + Be16(ca) + (e + rest) == d;
    assert U16(d, 0) == ca;
    assert LocationInfoAt(d, 2) == Located(Some(info), 2 + |e|);
    assert Js.Slice(d, 2 + |e|, |d|) == rest;
  }

  /**
   * `readContentCopyControlDescriptor`.  The component loop tests the
   * sub-cursor over the component region but reads the outer cursor, which
   * already stands past that region.
   */
  function ContentCopyControlOf(d: bytes): (r: Decoded<MMTSIDescriptor>)
  {
    if |d| < 1 then Undefined
    else
      var h := d[0];
      var rateFlag := h / 0x20 % 2 == 1;
      var controlFlag := h / 0x10 % 2 == 1;
      if rateFlag && |d| < 1 + 1 then Undefined
      else
        var rate := if rateFlag then Some(d[1] as nat) else None;
        var p := if rateFlag then 2 else 1;
        if !controlFlag then Ok(ContentCopyControl(h / 0x40, rate, None))
        else if |d| < 1 + p then Undefined
        else
          var length := d[p] as nat;
          var q := p + 1;
          if |d| < length + q then Undefined
          else if length < 4 then Ok(ContentCopyControl(h / 0x40, rate, Some([])))
          else
            match ComponentControlsFrom(d, q + length)
            case Ok(list) => Ok(ContentCopyControl(h / 0x40, rate, Some(list)))
            case _ => Thrown
  }

  /**
   * The component loop with the outer cursor at p: a 16-bit tag, a flag
   * byte and a skipped byte per entry, plus a rate byte when flagged.  The
   * sub-cursor never moves, so the loop ends only through a read that throws
   * or through the `break` of a flagged entry whose rate byte is missing.
   */
  function ComponentControlsFrom(d: bytes, p: nat): (r: Decoded<seq<ComponentControl>>)
    ensures !r.Undefined?
    decreases |d| - p
  {
    if |d| < p + 2 then Thrown
    else if |d| < p + 3 then Thrown
    else
      var h := d[p + 2];
      var q := p + 4;
      var rateFlag := h / 0x20 % 2 == 1;
      if rateFlag && |d| < q + 1 then Ok([])
      else if rateFlag then Chain([ComponentControl(U16(d, p), h / 0x40, Some(d[q] as nat))], ComponentControlsFrom(d, q + 1))
      else Chain([ComponentControl(U16(d, p), h / 0x40, None)], ComponentControlsFrom(d, q))
  }

  /** Without a flagged entry to break on, the component loop always raises an exception. */
  lemma {:induction false} ComponentControlsThrow(d: bytes, p: nat)
    requires forall i :: p <= i < |d| ==> d[i] / 0x20 % 2 == 0
    ensures ComponentControlsFrom(d, p) == Thrown
    decreases |d| - p
  {
    if |d| >= p + 3 {
      ComponentControlsThrow(d, p + 4);
    }
  }

  /**
   * A descriptor whose component region of four bytes or more ends the body
   * is never decoded: the loop reads past the end and throws.
   */
  lemma {:induction false} ContentCopyControlThrows(d: bytes)
    requires |d| >= 1 && d[0] / 0x10 % 2 == 1
    requires var p := if d[0] / 0x20 % 2 == 1 then 2 else 1;
             p + 1 <= |d| && d[p] >= 4 && p + 1 + d[p] == |d|
    ensures ContentCopyControlOf(d) == Thrown
  {
    ComponentControlsThrow(d, |d|);
  }

  method ReadContentCopyControlDescriptor(buffer: bytes) returns (r: Decoded<MMTSIDescriptor>)
    ensures r == ContentCopyControlOf(buffer)
  {
    var reader := new BinaryReader(buffer, 0);
    if !reader.CanRead(1) {
      return Undefined;
    }
    var h := reader.ReadUint8();
    var digitalRecordingControlData := h / 0x40;
    var maximumBitRateFlag := h / 0x20 % 2 == 1;
    var componentControlFlag := h / 0x10 % 2 == 1;
    if maximumBitRateFlag && !reader.CanRead(1) {
      return Undefined;
    }
    var maximumBitRate: Option<nat> := None;
    if maximumBitRateFlag {
      var rate := reader.ReadUint8();
      maximumBitRate := Some(rate);
    }
    if !componentControlFlag {
      return Ok(ContentCopyControl(digitalRecordingControlData, maximumBitRate, None));
    }
    if !reader.CanRead(1) {
      return Undefined;
    }
    var componentControlLength := reader.ReadUint8();
    if !reader.CanRead(componentControlLength) {
      return Undefined;
    }
    var region := reader.Subarray(componentControlLength);
    var creader := new BinaryReader(region, 0);
    var controls := ReadComponentControls(reader, creader.CanRead(4));
    if controls.Ok? {
      r := Ok(ContentCopyControl(digitalRecordingControlData, maximumBitRate, Some(controls.value)));
    } else {
      r := Thrown;
    }
  }

  /** The `while (creader.canRead(4))` loop; its condition is fixed, since creader never moves. */
  method ReadComponentControls(reader: BinaryReader, regionHolds4: bool) returns (r: Decoded<seq<ComponentControl>>)
    requires 0 <= reader.offset <= |reader.buffer|
    modifies reader
    ensures r == if regionHolds4 then ComponentControlsFrom(reader.buffer, old(reader.offset)) else Ok([])
  {
    if !regionHolds4 {
      return Ok([]);
    }
    ghost var b, o := reader.buffer, reader.offset;
    var controls: seq<ComponentControl> := [];
    ChainEmpty(ComponentControlsFrom(b, o));
    while true
      invariant reader.buffer == b && 0 <= reader.offset <= |b| + 1
      invariant Chain(controls, ComponentControlsFrom(b, reader.offset)) == ComponentControlsFrom(b, o)
      decreases |b| + 1 - reader.offset
    {
      ghost var start := reader.offset;
      if !reader.InView(2) {
        // `reader.readUint16()` past the end: RangeError
        return Thrown;
      }
      var componentTag := reader.ReadUint16();
      if !reader.InView(1) {
        return Thrown;
      }
      var h := reader.ReadUint8();
      reader.Skip(1);
      var digitalRecordingControlData := h / 0x40;
      var maximumBitRateFlag := h / 0x20 % 2 == 1;
      if maximumBitRateFlag && !reader.CanRead(1) {
        ChainDone(controls);
        return Ok(controls);
      }
      var maximumBitRate: Option<nat> := None;
      if maximumBitRateFlag {
        var rate := reader.ReadUint8();
        maximumBitRate := Some(rate);
      }
      var control := ComponentControl(componentTag, digitalRecordingControlData, maximumBitRate);
      assert ComponentControlsFrom(b, start) == Chain([control], ComponentControlsFrom(b, reader.offset));
      ChainAppend(controls, control, ComponentControlsFrom(b, reader.offset));
      controls := controls + [control];
    }
  }

  /** `readEmergencyNewsDescriptor`: an NTP timestamp and a skipped byte, nine bytes at least. */
  function EmergencyNewsOf(d: bytes): (r: Option<MMTSIDescriptor>)
    ensures r.Some? <==> |d| >= 9
  {
    if |d| < 8 + 1 then None else Some(EmergencyNews(NTP64At(d, 0)))
  }

  /** `readContentUsageControlDescriptor`: flags of bytes 0 and 1. */
  function ContentUsageControlOf(d: bytes): (r: Option<MMTSIDescriptor>)
    ensures r.Some? <==> |d| >= 2
    ensures r.Some? ==> r.value.ContentUsageControl? && r.value.retentionState < 8
  {
    if |d| < 1 + 1 then None
    else Some(ContentUsageControl(d[0] / 0x80 == 1, d[0] / 0x40 % 2 == 1, d[0] / 0x20 % 2 == 1,
                                  d[1] / 0x10 % 2 == 1, d[1] / 2 % 8, d[1] % 2 == 1))
  }

  /** `readMHParentalRatingDescriptor`'s loop: a 24-bit country code and a rating per four bytes. */
  function Ratings(b: bytes, o: nat): (r: seq<ParentalRating>)
    decreases |b| - o
  {
    if |b| < 3 + 1 + o then [] else [ParentalRating(U24(b, o), b[o + 3])] + Ratings(b, o + 4)
  }

  /** One rating per whole four bytes; a trailing partial entry is ignored. */
  lemma {:induction false} RatingsLength(b: bytes, o: nat)
    requires o <= |b|
    ensures |Ratings(b, o)| == (|b| - o) / 4
    decreases |b| - o
  {
    if o + 4 <= |b| {
      RatingsLength(b, o + 4);
    }
  }

  method ReadMHParentalRatingDescriptor(buffer: bytes) returns (ratings: seq<ParentalRating>)
    ensures ratings == Ratings(buffer, 0)
  {
    var reader := new BinaryReader(buffer, 0);
    ratings := [];
    while reader.CanRead(3 + 1)
      invariant reader.buffer == buffer && reader.offset >= 0
      invariant ratings + Ratings(buffer, reader.offset) == Ratings(buffer, 0)
      decreases |buffer| - reader.offset
    {
      ghost var start := reader.offset;
      var countryCode := reader.ReadUint24();
      var rating := reader.ReadUint8();
      assert Ratings(buffer, start) == [ParentalRating(countryCode, rating)] + Ratings(buffer, reader.offset);
      ratings := ratings + [ParentalRating(countryCode, rating)];
    }
  }

  /** `readAssetGroupDescriptor`: two bytes, group and selection level. */
  function AssetGroupOf(d: bytes): (r: Option<MMTSIDescriptor>)
    ensures r.Some? <==> |d| >= 2
    ensures r.Some? ==> r.value == AssetGroup(d[0], d[1])
  {
    if |d| < 2 then None else Some(AssetGroup(d[0], d[1]))
  }

  /** `readMPUTimestampDescriptor`'s loop: a 32-bit sequence number and an NTP time per twelve bytes. */
  function Timestamps(b: bytes, o: nat): (r: seq<MPUTimestampEntry>)
    decreases |b| - o
  {
    if |b| < 4 + 8 + o then [] else [MPUTimestampEntry(U32(b, o), NTP64At(b, o + 4))] + Timestamps(b, o + 12)
  }

  lemma {:induction false} TimestampsLength(b: bytes, o: nat)
    requires o <= |b|
    ensures |Timestamps(b, o)| == (|b| - o) / 12
    decreases |b| - o
  {
    if o + 12 <= |b| {
      TimestampsLength(b, o + 12);
    }
  }

  method ReadMPUTimestampDescriptor(buffer: bytes) returns (timestamps: seq<MPUTimestampEntry>)
    ensures timestamps == Timestamps(buffer, 0)
  {
    var reader := new BinaryReader(buffer, 0);
    timestamps := [];
    while reader.CanRead(4 + 8)
      invariant reader.buffer == buffer && reader.offset >= 0
      invariant timestamps + Timestamps(buffer, reader.offset) == Timestamps(buffer, 0)
      decreases |buffer| - reader.offset
    {
      ghost var start := reader.offset;
      var mpuSequenceNumber := reader.ReadUint32();
      var mpuPresentationTime := reader.ReadNTP64Timestamp();
      var entry := MPUTimestampEntry(mpuSequenceNumber, mpuPresentationTime);
      assert Timestamps(buffer, start) == [entry] + Timestamps(buffer, reader.offset);
      timestamps := timestamps + [entry];
    }
  }

  /** `readMHHierarchyDescriptor`: four bytes of bit fields. */
  function HierarchyOf(d: bytes): (r: Option<MMTSIDescriptor>)
    ensures r.Some? <==> |d| >= 4
    ensures r.Some? ==> r.value.MHHierarchy? && r.value.hierarchyType < 0x10 && r.value.hierarchyLayerIndex < 0x40
                        && r.value.hierarchyEmbeddedLayerIndex < 0x40 && r.value.hierarchyChannel < 0x40
  {
    if |d| < 4 then None
    else Some(MHHierarchy(d[0] / 0x40 % 2 == 1, d[0] / 0x20 % 2 == 1, d[0] / 0x10 % 2 == 1, d[0] % 0x10,
                          d[1] % 0x40, d[2] / 0x80 == 1, d[2] % 0x40, d[3] % 0x40))
  }

  /** The event group's `for` loop: n (service, event) pairs at o. */
  function GroupEvents(b: bytes, o: nat, n: nat): (r: seq<EventGroupEvent>)
    requires o + 4 * n <= |b|
    ensures |r| == n
  {
    if n == 0 then [] else GroupEvents(b, o, n - 1) + [EventGroupEvent(U16(b, o + 4 * (n - 1)), U16(b, o + 4 * (n - 1) + 2))]
  }

  /** The other-network loop: eight bytes per entry while eight are left. */
  function OtherNetworkEvents(b: bytes, o: nat): (r: seq<OtherNetworkEvent>)
    decreases |b| - o
  {
    if |b| < 8 + o then []
    else [OtherNetworkEvent(U16(b, o), U16(b, o + 2), U16(b, o + 4), U16(b, o + 6))] + OtherNetworkEvents(b, o + 8)
  }

  /**
   * `readMHEventGroupDescriptor`: a group type and a count in byte 0, the
   * counted events, then other-network events for group types 4 and 5 or
   * the rest as private data otherwise.
   */
  function EventGroupOf(d: bytes): (r: Option<MMTSIDescriptor>)
  {
    if |d| < 1 then None
    else
      var groupType := d[0] / 0x10;
      var eventCount := d[0] % 0x10;
      if |d| < (2 + 2) * eventCount + 1 then None
      else
        var events := GroupEvents(d, 1, eventCount);
        var p := 1 + 4 * eventCount;
        if groupType == EVENT_GROUP_TYPE_RELAY_TO_OTHER_NETWORK || groupType == EVENT_GROUP_TYPE_MOVEMENT_FROM_OTHER_NETWORK
        then Some(MHEventGroup(groupType, events, Some(OtherNetworkEvents(d, p)), None))
        else Some(MHEventGroup(groupType, events, None, Some(Js.Slice(d, p, |d|))))
  }

  /**
   * The group decodes iff its counted events fit; it then holds exactly that
   * many, and other-network events exactly for group types 4 and 5.
   */
  lemma {:induction false} EventGroupSpec(d: bytes)
    ensures EventGroupOf(d).Some? <==> |d| >= 1 && |d| >= 1 + 4 * (d[0] % 0x10)
    ensures EventGroupOf(d).Some? ==>
              var g := EventGroupOf(d).value;
              |g.events| == d[0] % 0x10 && g.groupType == d[0] / 0x10
              && (g.otherNetworkEvents.Some? <==> g.groupType in {4, 5})
              && (g.groupPrivateData.Some? <==> g.groupType !in {4, 5})
  {
  }

  method ReadMHEventGroupDescriptor(buffer: bytes) returns (r: Option<MMTSIDescriptor>)
    ensures r == EventGroupOf(buffer)
  {
    var reader := new BinaryReader(buffer, 0);
    if !reader.CanRead(1) {
      return None;
    }
    var b0 := reader.ReadUint8();
    var groupType := b0 / 0x10;
    var eventCount := b0 % 0x10;
    if !reader.CanRead((2 + 2) * eventCount) {
      return None;
    }
    var events: seq<EventGroupEvent> := [];
    var i := 0;
    while i < eventCount
      invariant 0 <= i <= eventCount && reader.buffer == buffer && reader.offset == 1 + 4 * i
      invariant events == GroupEvents(buffer, 1, i)
    {
      var serviceId := reader.ReadUint16();
      var eventId := reader.ReadUint16();
      events := events + [EventGroupEvent(serviceId, eventId)];
      i := i + 1;
    }
    if groupType == EVENT_GROUP_TYPE_RELAY_TO_OTHER_NETWORK || groupType == EVENT_GROUP_TYPE_MOVEMENT_FROM_OTHER_NETWORK {
      var otherNetworkEvents := ReadOtherNetworkEvents(reader);
      r := Some(MHEventGroup(groupType, events, Some(otherNetworkEvents), None));
    } else {
      var privateData := reader.SliceRest();
      r := Some(MHEventGroup(groupType, events, None, Some(privateData)));
    }
  }

  method ReadOtherNetworkEvents(reader: BinaryReader) returns (events: seq<OtherNetworkEvent>)
    requires reader.offset >= 0
    modifies reader
    ensures events == OtherNetworkEvents(reader.buffer, old(reader.offset))
  {
    ghost var b, o := reader.buffer, reader.offset;
    events := [];
    while reader.CanRead(8)
      invariant reader.buffer == b && reader.offset >= 0
      invariant events + OtherNetworkEvents(b, reader.offset) == OtherNetworkEvents(b, o)
      decreases |b| - reader.offset
    {
      ghost var start := reader.offset;
      var originalNetworkId := reader.ReadUint16();
      var tlvStreamId := reader.ReadUint16();
      var serviceId := reader.ReadUint16();
      var eventId := reader.ReadUint16();
      var event := OtherNetworkEvent(originalNetworkId, tlvStreamId, serviceId, eventId);
      assert OtherNetworkEvents(b, start) == [event] + OtherNetworkEvents(b, reader.offset);
      events := events + [event];
    }
  }

  /** The logo list: three one-byte fields per entry while three bytes are left. */
  function LogoEntries(b: bytes, o: nat): (r: seq<LogoEntry>)
    decreases |b| - o
  {
    if |b| < 1 + 1 + 1 + o then [] else [LogoEntry(b[o], b[o + 1], b[o + 2])] + LogoEntries(b, o + 3)
  }

  /**
   * `readMHLogoTransmissionDescriptor`: type 1 carries masked logo id and
   * version, a download id and the logo list; type 2 only the logo id; any
   * other type is undefined.
   */
  function LogoTransmissionOf(d: bytes): (r: Option<MMTSIDescriptor>)
    ensures r.Some? ==> |d| >= 1 && d[0] in {1, 2} && r.value.MHLogoTransmission? && r.value.logo.logoId < 0x200
    ensures r.Some? && r.value.MHLogoTransmission? && r.value.logo.Direct? ==> d[0] == 1 && r.value.logo.logoVersion < 0x1000
    ensures r.Some? && r.value.MHLogoTransmission? && r.value.logo.Indirect? ==> d[0] == 2
    ensures r.None? <==> |d| < 1 || d[0] !in {1, 2} || (d[0] == 1 && |d| < 7) || (d[0] == 2 && |d| < 3)
  {
    if |d| < 1 then None
    else if d[0] == MH_LOGO_TRANSMISSION_TYPE_DIRECT then
      if |d| < 1 + 2 + 2 + 2 then None
      else Some(MHLogoTransmission(Direct(U16(d, 1) % 0x200, U16(d, 3) % 0x1000, U16(d, 5), LogoEntries(d, 7))))
    else if d[0] == MH_LOGO_TRANSMISSION_TYPE_INDIRECT then
      if |d| < 1 + 2 then None else Some(MHLogoTransmission(Indirect(U16(d, 1) % 0x200)))
    else None
  }

  method ReadMHLogoTransmissionDescriptor(buffer: bytes) returns (r: Option<MMTSIDescriptor>)
    ensures r == LogoTransmissionOf(buffer)
  {
    var reader := new BinaryReader(buffer, 0);
    if !reader.CanRead(1) {
      return None;
    }
    var logoTransmissionType := reader.ReadUint8();
    if logoTransmissionType == MH_LOGO_TRANSMISSION_TYPE_DIRECT {
      if !reader.CanRead(2 + 2 + 2) {
        return None;
      }
      var logoId := reader.ReadUint16();
      var logoVersion := reader.ReadUint16();
      var downloadDataId := reader.ReadUint16();
      var logoList := ReadLogoEntries(reader);
      r := Some(MHLogoTransmission(Direct(logoId % 0x200, logoVersion % 0x1000, downloadDataId, logoList)));
    } else if logoTransmissionType == MH_LOGO_TRANSMISSION_TYPE_INDIRECT {
      if !reader.CanRead(2) {
        return None;
      }
      var logoId := reader.ReadUint16();
      r := Some(MHLogoTransmission(Indirect(logoId % 0x200)));
    } else {
      r := None;
    }
  }

  method ReadLogoEntries(reader: BinaryReader) returns (logoList: seq<LogoEntry>)
    requires reader.offset >= 0
    modifies reader
    ensures logoList == LogoEntries(reader.buffer, old(reader.offset))
  {
    ghost var b, o := reader.buffer, reader.offset;
    logoList := [];
    while reader.CanRead(1 + 1 + 1)
      invariant reader.buffer == b && reader.offset >= 0
      invariant logoList + LogoEntries(b, reader.offset) == LogoEntries(b, o)
      decreases |b| - reader.offset
    {
      ghost var start := reader.offset;
      var logoType := reader.ReadUint8();
      var startSectionNumber := reader.ReadUint8();
      var numOfSections := reader.ReadUint8();
      var entry := LogoEntry(logoType, startSectionNumber, numOfSections);
      assert LogoEntries(b, start) == [entry] + LogoEntries(b, reader.offset);
      logoList := logoList + [entry];
    }
  }

  /** `readScramblerDescriptor`: layer type in the top two bits, the system id, the rest. */
  function ScramblerOf(d: bytes): (r: Option<MMTSIDescriptor>)
    ensures r.Some? <==> |d| >= 2
    ensures r.Some? ==> r.value.Scrambler? && r.value.layerType < 4 && r.value.scrambleSystemId == d[1]
                        && d == d[..2] + r.value.privateData
  {
    if |d| < 2 then None else Some(Scrambler(d[0] / 0x40, d[1], Js.Slice(d, 2, |d|)))
  }

  /**
   * `readEventMessageDescriptor`: fourteen bytes at least.  Time modes 0,
   * 1, 2, 3 and 5 are known; mode 0 skips the eight time bytes.
   */
  function EventMessageOf(d: bytes): (r: Option<MMTSIDescriptor>)
    ensures r.Some? <==> |d| >= 14 && d[2] in {0, 1, 2, 3, 5}
    ensures r.Some? ==> r.value.EventMessage? && (r.value.time.Immediate? <==> d[2] == 0)
    ensures r.Some? ==> r.value.eventMessageType == d[11] && r.value.eventMessageId == U16(d, 12)
                        && r.value.privateData == d[14..] && r.value.eventMessageGroupId < 0x1000
  {
    if |d| < 2 + 1 + 8 + 1 + 2 then None
    else
      var mode := d[2];
      var time :=
        if mode == 0x00 then Some(Immediate)
        else if mode == 0x01 then Some(UTC(NTP64At(d, 3)))
        else if mode == 0x02 then Some(NPT(NTP64At(d, 3)))
        else if mode == 0x03 then Some(Relative(NTP64At(d, 3)))
        else if mode == 0x05 then Some(UTCStreamTime(NTP64At(d, 3)))
        else None;
      if time.None? then None
      else Some(EventMessage(U16(d, 0) / 0x10, time.value, d[11], U16(d, 12), Js.Slice(d, 14, |d|)))
  }

  /** `readMPUNodeDescriptor`: the 16-bit node tag, two bytes at least. */
  function MPUNodeOf(d: bytes): (r: Option<MMTSIDescriptor>)
    ensures r.Some? <==> |d| >= 2
    ensures forall t: nat, rest: bytes :: t < 0x1_0000 && d == Be16(t) + rest ==> r == Some(MPUNode(t))
  {
    if |d| < 2 then None else Some(MPUNode((d[0] as int) * 0x100 + d[1]))
  }

  // ---------------------------------------------------------------------
  // The loop

  /** The dispatch `switch`, calling the reader methods for the readers with loops. */
  method ReadDescriptor(tag: nat, desc: bytes) returns (r: Decoded<MMTSIDescriptor>)
    ensures r == DescriptorOf(tag, desc)
  {
    if tag == MMT_SI_ACCESS_CONTROL_DESCRIPTOR {
      r := FromOption(AccessControlOf(desc));
    } else if tag == MMT_SI_CONTENT_COPY_CONTROL_DESCRIPTOR {
      r := ReadContentCopyControlDescriptor(desc);
    } else if tag == MMT_SI_EMERGENCY_INFORMATION_DESCRIPTOR {
      var services := ReadEmergencyInformationDescriptor(desc);
      r := Ok(EmergencyInformation(services));
    } else if tag == MMT_SI_EMERGENCY_NEWS_DESCRIPTOR {
      r := FromOption(EmergencyNewsOf(desc));
    } else if tag == MMT_SI_CONTENT_USAGE_CONTROL_DESCRIPTOR {
      r := FromOption(ContentUsageControlOf(desc));
    } else if tag == MMT_SI_MH_PARENTAL_RATING_DESCRIPTOR {
      var ratings := ReadMHParentalRatingDescriptor(desc);
      r := Ok(MHParentalRating(ratings));
    } else if tag == MMT_SI_ASSET_GROUP_DESCRIPTOR {
      r := FromOption(AssetGroupOf(desc));
    } else if tag == MMT_SI_MPU_TIMESTAMP_DESCRIPTOR {
      var timestamps := ReadMPUTimestampDescriptor(desc);
      r := Ok(MPUTimestamp(timestamps));
    } else if tag == MMT_SI_MH_HIERARCHY_DESCRIPTOR {
      r := FromOption(HierarchyOf(desc));
    } else if tag == MMT_SI_MH_EVENT_GROUP_DESCRIPTOR {
      var g := ReadMHEventGroupDescriptor(desc);
      r := FromOption(g);
    } else if tag == MMT_SI_MH_LOGO_TRANSMISSION_DESCRIPTOR {
      var logo := ReadMHLogoTransmissionDescriptor(desc);
      r := FromOption(logo);
    } else if tag == MMT_SI_SCRAMBLER_DESCRIPTOR {
      r := FromOption(ScramblerOf(desc));
    } else if tag == MMT_SI_EVENT_MESSAGE_DESCRIPTOR {
      r := FromOption(EventMessageOf(desc));
    } else if tag == MMT_SI_MPU_NODE_DESCRIPTOR {
      r := FromOption(MPUNodeOf(desc));
    } else if UnparsedTag(tag) {
      r := Ok(Unparsed(tag, desc));
    } else {
      r := Undefined;
    }
  }

  /** The tag and length of the loop body; LengthThrows where the length read would throw. */
  method ReadFrame(reader: BinaryReader) returns (step: FrameStep)
    requires reader.offset >= 0 && reader.CanRead(3)
    modifies reader
    ensures step == FrameAt(reader.buffer, old(reader.offset))
    ensures step.Next? ==> reader.offset == step.next
  {
    ghost var o := reader.offset;
    var descriptorTag := reader.ReadUint16();
    var lengthBytes := LengthBytes(descriptorTag);
    if !reader.InView(lengthBytes) {
      // the DataView read of the length field would throw
      return LengthThrows;
    }
    var descriptorLength;
    if lengthBytes == 4 {
      descriptorLength := reader.ReadUint32();
    } else if lengthBytes == 2 {
      descriptorLength := reader.ReadUint16();
    } else {
      descriptorLength := reader.ReadUint8();
    }
    if !reader.CanRead(descriptorLength) {
      return Stop;
    }
    var desc := reader.Subarray(descriptorLength);
    step := Next(Frame(descriptorTag, desc), reader.offset);
  }

  method ReadMMTSIDescriptors(buffer: bytes) returns (r: Decoded<seq<MMTSIDescriptor>>)
    ensures r == DescriptorsFrom(buffer, 0)
  {
    var reader := new BinaryReader(buffer, 0);
    r := ReadDescriptorList(reader);
  }

  /** The descriptor list in the n bytes from p, cut as `subarray` cuts them (clamped at the end). */
  function DescriptorsIn(b: bytes, p: int, n: int): (r: Decoded<seq<MMTSIDescriptor>>)
    ensures !r.Undefined?
  {
    DescriptorsFrom(Js.Slice(b, p, p + n), 0)
  }

  /** `readMMTSIDescriptors(reader.subarray(n))`. */
  method ReadDescriptorsIn(reader: BinaryReader, n: int) returns (r: Decoded<seq<MMTSIDescriptor>>)
    modifies reader
    ensures reader.offset == old(reader.offset) + n
    ensures r == DescriptorsIn(reader.buffer, old(reader.offset), n)
  {
    var desc := reader.Subarray(n);
    r := ReadMMTSIDescriptors(desc);
  }

  method ReadDescriptorList(reader: BinaryReader) returns (r: Decoded<seq<MMTSIDescriptor>>)
    requires reader.offset >= 0
    modifies reader
    ensures r == DescriptorsFrom(reader.buffer, old(reader.offset))
  {
    ghost var b, o := reader.buffer, reader.offset;
    var descriptors: seq<MMTSIDescriptor> := [];
    ChainEmpty(DescriptorsFrom(b, o));
    while reader.CanRead(2 + 1)
      invariant reader.buffer == b && reader.offset >= 0
      invariant Chain(descriptors, DescriptorsFrom(b, reader.offset)) == DescriptorsFrom(b, o)
      decreases |b| - reader.offset
    {
      ghost var start := reader.offset;
      var step := ReadFrame(reader);
      if step.LengthThrows? {
        return Thrown;
      }
      if step.Stop? {
        ChainDone(descriptors);
        return Ok(descriptors);
      }
      var descriptor := ReadDescriptor(step.frame.tag, step.frame.body);
      if descriptor.Thrown? {
        return Thrown;
      }
      if descriptor.Ok? {
        ChainAppend(descriptors, descriptor.value, DescriptorsFrom(b, reader.offset));
        descriptors := descriptors + [descriptor.value];
      }
    }
    ChainDone(descriptors);
    r := Ok(descriptors);
  }
}
