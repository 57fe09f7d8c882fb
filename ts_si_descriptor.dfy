// `readDescriptors` of src/ts/si-descriptor.ts: the descriptor loop of the
// MPEG-2 TS tables.  Each descriptor is framed by a one-byte tag and a
// one-byte length; the body goes to the reader for its tag.
module TsSiDescriptor {
  import opened Js
  import opened Decoding
  import opened Utils
  import opened SiDescriptor
  import opened TsDescriptors

  const CA_DESCRIPTOR := 0x09
  const ACCESS_CONTROL_DESCRIPTOR := 0xf6
  const CA_SERVICE_DESCRIPTOR := 0xcc
  const DIGITAL_COPY_CONTROL_DESCRIPTOR := 0xc1
  const EMERGENCY_INFORMATION_DESCRIPTOR := 0xfc
  const CONTENT_AVAILABILITY_DESCRIPTOR := 0xde
  const STREAM_IDENTIFIER_DESCRIPTOR := 0x52
  const HIERARCHICAL_TRANSMISSION_DESCRIPTOR := 0xc0
  const DATA_COMPONENT_DESCRIPTOR := 0xfd
  const VIDEO_DECODE_CONTROL_DESCRIPTOR := 0xc8
  const NETWORK_NAME_DESCRIPTOR := 0x40
  const SYSTEM_MANAGEMENT_DESCRIPTOR := 0xfe
  const CA_EMM_TS_DESCRIPTOR := 0xca
  const SERVICE_LIST_DESCRIPTOR := 0x41
  const SATELLITE_DELIVERY_SYSTEM_DESCRIPTOR := 0x43
  const TERRESTRIAL_DELIVERY_SYSTEM_DESCRIPTOR := 0xfa
  const PARTIAL_RECEPTION_DESCRIPTOR := 0xfb
  const TS_INFORMATION_DESCRIPTOR := 0xcd
  const SI_PARAMETER_DESCRIPTOR := 0xd7
  const BROADCASTER_NAME_DESCRIPTOR := 0xd8
  const EXTENDED_BROADCASTER_DESCRIPTOR := 0xce
  const SERVICE_DESCRIPTOR := 0x48
  const CA_CONTRACT_INFO_DESCRIPTOR := 0xcb
  const LOGO_TRANSMISSION_DESCRIPTOR := 0xcf
  const LINKAGE_DESCRIPTOR := 0x4a
  const SHORT_EVENT_DESCRIPTOR := 0x4d
  const COMPONENT_DESCRIPTOR := 0x50
  const AUDIO_COMPONENT_DESCRIPTOR := 0xc4
  const DATA_CONTENT_DESCRIPTOR := 0xc7
  const CONTENT_DESCRIPTOR := 0x54
  const PARENTAL_RATING_DESCRIPTOR := 0x55
  const EVENT_GROUP_DESCRIPTOR := 0xd6
  const COMPONENT_GROUP_DESCRIPTOR := 0xd9
  const SERIES_DESCRIPTOR := 0xd5
  const EXTENDED_EVENT_DESCRIPTOR := 0x4e
  const LOCAL_TIME_OFFSET_DESCRIPTOR := 0x58
  const STUFFING_DESCRIPTOR := 0x42

  /** The tags the `switch` has a case for. */
  predicate KnownTag(tag: nat)
  {
    tag in {CA_DESCRIPTOR, ACCESS_CONTROL_DESCRIPTOR, CA_SERVICE_DESCRIPTOR, DIGITAL_COPY_CONTROL_DESCRIPTOR,
            EMERGENCY_INFORMATION_DESCRIPTOR, CONTENT_AVAILABILITY_DESCRIPTOR, STREAM_IDENTIFIER_DESCRIPTOR,
            HIERARCHICAL_TRANSMISSION_DESCRIPTOR, DATA_COMPONENT_DESCRIPTOR, VIDEO_DECODE_CONTROL_DESCRIPTOR,
            NETWORK_NAME_DESCRIPTOR, SYSTEM_MANAGEMENT_DESCRIPTOR, CA_EMM_TS_DESCRIPTOR, SERVICE_LIST_DESCRIPTOR,
            SATELLITE_DELIVERY_SYSTEM_DESCRIPTOR, TERRESTRIAL_DELIVERY_SYSTEM_DESCRIPTOR,
            PARTIAL_RECEPTION_DESCRIPTOR, TS_INFORMATION_DESCRIPTOR, SI_PARAMETER_DESCRIPTOR,
            BROADCASTER_NAME_DESCRIPTOR, EXTENDED_BROADCASTER_DESCRIPTOR, SERVICE_DESCRIPTOR,
            CA_CONTRACT_INFO_DESCRIPTOR, LOGO_TRANSMISSION_DESCRIPTOR, LINKAGE_DESCRIPTOR, SHORT_EVENT_DESCRIPTOR,
            COMPONENT_DESCRIPTOR, AUDIO_COMPONENT_DESCRIPTOR, DATA_CONTENT_DESCRIPTOR, CONTENT_DESCRIPTOR,
            PARENTAL_RATING_DESCRIPTOR, EVENT_GROUP_DESCRIPTOR, COMPONENT_GROUP_DESCRIPTOR, SERIES_DESCRIPTOR,
            EXTENDED_EVENT_DESCRIPTOR, LOCAL_TIME_OFFSET_DESCRIPTOR, STUFFING_DESCRIPTOR}
  }

  // ---------------------------------------------------------------------
  // Tag dispatch

  /**
   * The `switch` on the tag: the reader's result, or Undefined for a tag
   * without a case.  Only the extended broadcaster reader can throw.
   */
  function DescriptorOf(tag: nat, d: bytes): (r: Decoded<Descriptor>)
    ensures !KnownTag(tag) ==> r.Undefined?
    ensures r.Thrown? ==> tag == EXTENDED_BROADCASTER_DESCRIPTOR
  {
    if tag == CA_DESCRIPTOR then FromOption(CAOf(d))
    else if tag == ACCESS_CONTROL_DESCRIPTOR then FromOption(AccessControlOf(d))
    else if tag == CA_SERVICE_DESCRIPTOR then FromOption(CAServiceOf(d))
    else if tag == DIGITAL_COPY_CONTROL_DESCRIPTOR then FromOption(DigitalCopyControlOf(d))
    else if tag == EMERGENCY_INFORMATION_DESCRIPTOR then Ok(EmergencyInformation(EmergencyServices(d, 0)))
    else if tag == CONTENT_AVAILABILITY_DESCRIPTOR then FromOption(ContentAvailabilityOf(d))
    else if tag == STREAM_IDENTIFIER_DESCRIPTOR then FromOption(StreamIdentifierOf(d))
    else if tag == HIERARCHICAL_TRANSMISSION_DESCRIPTOR then FromOption(HierarchicalTransmissionOf(d))
    else if tag == DATA_COMPONENT_DESCRIPTOR then FromOption(DataComponentOf(d))
    else if tag == VIDEO_DECODE_CONTROL_DESCRIPTOR then FromOption(VideoDecodeControlOf(d))
    else if tag == NETWORK_NAME_DESCRIPTOR then Ok(NetworkName(NetworkNameOf(d)))
    else if tag == SYSTEM_MANAGEMENT_DESCRIPTOR then
      (match SystemManagementOf(d) case None => Undefined case Some(s) => Ok(SystemManagement(s)))
    else if tag == CA_EMM_TS_DESCRIPTOR then FromOption(CAEMMTSOf(d))
    else if tag == SERVICE_LIST_DESCRIPTOR then Ok(ServiceList(ServiceEntries(d, 0)))
    else if tag == SATELLITE_DELIVERY_SYSTEM_DESCRIPTOR then
      (match SatelliteDeliverySystemOf(d) case None => Undefined case Some(s) => Ok(SatelliteDeliverySystem(s)))
    else if tag == TERRESTRIAL_DELIVERY_SYSTEM_DESCRIPTOR then FromOption(TerrestrialDeliverySystemOf(d))
    else if tag == PARTIAL_RECEPTION_DESCRIPTOR then FromOption(PartialReceptionOf(d))
    else if tag == TS_INFORMATION_DESCRIPTOR then FromOption(TSInformationOf(d))
    else if tag == SI_PARAMETER_DESCRIPTOR then FromOption(SIParameterOf(d))
    else if tag == BROADCASTER_NAME_DESCRIPTOR then FromOption(BroadcasterNameOf(d))
    else if tag == EXTENDED_BROADCASTER_DESCRIPTOR then ExtendedBroadcasterOf(d)
    else if tag == SERVICE_DESCRIPTOR then FromOption(ServiceOf(d))
    else if tag == CA_CONTRACT_INFO_DESCRIPTOR then FromOption(CAContractInfoOf(d))
    else if tag == LOGO_TRANSMISSION_DESCRIPTOR then FromOption(LogoTransmissionOf(d))
    else if tag == LINKAGE_DESCRIPTOR then FromOption(LinkageOf(d))
    else if tag == SHORT_EVENT_DESCRIPTOR then FromOption(ShortEventOf(d))
    else if tag == COMPONENT_DESCRIPTOR then FromOption(ComponentOf(d))
    else if tag == AUDIO_COMPONENT_DESCRIPTOR then FromOption(AudioComponentOf(d))
    else if tag == DATA_CONTENT_DESCRIPTOR then FromOption(DataContentOf(d))
    else if tag == CONTENT_DESCRIPTOR then Ok(ContentDescriptor(ContentItems(d, 0)))
    else if tag == PARENTAL_RATING_DESCRIPTOR then Ok(ParentalRatingDescriptor(Ratings(d, 0)))
    else if tag == EVENT_GROUP_DESCRIPTOR then FromOption(EventGroupOf(d))
    else if tag == COMPONENT_GROUP_DESCRIPTOR then FromOption(ComponentGroupOf(d))
    else if tag == SERIES_DESCRIPTOR then FromOption(SeriesOf(d))
    else if tag == EXTENDED_EVENT_DESCRIPTOR then FromOption(ExtendedEventOf(d))
    else if tag == LOCAL_TIME_OFFSET_DESCRIPTOR then Ok(LocalTimeOffsetDescriptor(LocalTimeOffsets(d, 0)))
    else if tag == STUFFING_DESCRIPTOR then FromOption(StuffingOf(d))
    else Undefined
  }

  // ---------------------------------------------------------------------
  // Framing

  /** A descriptor as the loop cuts it out: its tag and its body. */
  datatype Frame = Frame(tag: nat, body: bytes)

  /** One turn of the loop at o: the end of the list, or a frame and where the next one starts. */
  datatype FrameStep = Stop | Next(frame: Frame, next: nat)

  /**
   * The loop's framing at o.  It runs while a tag and a length are left; a
   * body longer than what is left ends the list (`break`).
   */
  function FrameAt(b: bytes, o: nat): (r: FrameStep)
    ensures r.Next? ==> o + 2 <= r.next <= |b| && r.frame.tag == b[o] && r.next == o + 2 + |r.frame.body|
    ensures r.Next? ==> r.frame.body == b[o + 2..r.next]
    ensures r.Stop? <==> (|b| < o + 2 || |b| < o + 2 + b[o + 1])
  {
    if |b| < 2 + o then Stop
    else
      var length := b[o + 1];
      var p := o + 2;
      if |b| < length + p then Stop
      else Next(Frame(b[o], b[p..p + length]), p + length)
  }

  /** The frames of the list from o, with the per-tag readers left out. */
  function Frames(b: bytes, o: nat): (r: seq<Frame>)
    decreases |b| - o
  {
    match FrameAt(b, o)
    case Stop => []
    case Next(f, next) => [f] + Frames(b, next)
  }

  /**
   * `readDescriptors` from o: each frame's body goes to its tag's reader; an
   * unknown tag is skipped (`continue`), an undefined result is dropped, and
   * an exception in a reader ends the whole list.
   */
  function DescriptorsFrom(b: bytes, o: nat): (r: Decoded<seq<Descriptor>>)
    ensures !r.Undefined?
    decreases |b| - o
  {
    match FrameAt(b, o)
    case Stop => Ok([])
    case Next(f, next) =>
      match DescriptorOf(f.tag, f.body)
      case Thrown => Thrown
      case Undefined => DescriptorsFrom(b, next)
      case Ok(d) => Chain([d], DescriptorsFrom(b, next))
  }

  /** The descriptors the readers make of a list of frames, in order. */
  function Collect(fs: seq<Frame>): (r: Decoded<seq<Descriptor>>)
    ensures !r.Undefined?
  {
    if fs == [] then Ok([])
    else
      match DescriptorOf(fs[0].tag, fs[0].body)
      case Thrown => Thrown
      case Undefined => Collect(fs[1..])
      case Ok(d) => Chain([d], Collect(fs[1..]))
  }

  /** The loop is framing followed by the per-tag readers. */
  lemma {:induction false} DescriptorsFromFrames(b: bytes, o: nat)
    ensures DescriptorsFrom(b, o) == Collect(Frames(b, o))
    decreases |b| - o
  {
    match FrameAt(b, o)
    case Stop =>
    case Next(f, next) =>
      DescriptorsFromFrames(b, next);
      assert Frames(b, o) == [f] + Frames(b, next);
      assert Frames(b, o)[1..] == Frames(b, next);
  }

  /** The outcome of a list made of two parts: the first part's, then the second's, order kept. */
  function Join(first: Decoded<seq<Descriptor>>, second: Decoded<seq<Descriptor>>): Decoded<seq<Descriptor>>
  {
    match first
    case Ok(xs) => Chain(xs, second)
    case Undefined => Undefined
    case Thrown => Thrown
  }

  lemma {:induction false} CollectAppend(fs: seq<Frame>, gs: seq<Frame>)
    ensures Collect(fs + gs) == Join(Collect(fs), Collect(gs))
    decreases |fs|
  {
    if fs == [] {
      assert fs + gs == gs;
      ChainEmpty(Collect(gs));
    } else {
      assert (fs + gs)[0] == fs[0];
      assert (fs + gs)[1..] == fs[1..] + gs;
      CollectAppend(fs[1..], gs);
      match DescriptorOf(fs[0].tag, fs[0].body)
      case Thrown =>
      case Undefined =>
      case Ok(d) =>
        if Collect(fs[1..]).Ok? {
          ChainAppend([], d, Chain(Collect(fs[1..]).value, Collect(gs)));
          assert Chain([d], Chain(Collect(fs[1..]).value, Collect(gs)))
              == Chain([d] + Collect(fs[1..]).value, Collect(gs)) by {
            if Collect(gs).Ok? {
              assert [d] + (Collect(fs[1..]).value + Collect(gs).value)
                  == ([d] + Collect(fs[1..]).value) + Collect(gs).value;
            }
          }
        }
    }
  }

  /** A tag without a case, or a reader returning undefined, leaves no trace in the list. */
  lemma {:induction false} SkippedFrame(fs: seq<Frame>, f: Frame, gs: seq<Frame>)
    requires DescriptorOf(f.tag, f.body).Undefined?
    ensures Collect(fs + [f] + gs) == Collect(fs + gs)
  {
    CollectAppend(fs + [f], gs);
    CollectAppend(fs, [f]);
    CollectAppend(fs, gs);
    assert [f][1..] == [];
    if Collect(fs).Ok? {
      ChainDone(Collect(fs).value);
    }
  }

  /** An exception in one reader ends the whole list, whatever comes before or after. */
  lemma {:induction false} ThrownFrame(fs: seq<Frame>, f: Frame, gs: seq<Frame>)
    requires DescriptorOf(f.tag, f.body).Thrown?
    ensures Collect(fs + [f] + gs) == Thrown
  {
    CollectAppend(fs + [f], gs);
    CollectAppend(fs, [f]);
  }

  // ---------------------------------------------------------------------
  // The wire form

  /** A tag and body one tag byte and one length byte can carry. */
  predicate WellFormedFrame(f: Frame)
  {
    f.tag < 0x100 && |f.body| < 0x100
  }

  /** One descriptor on the wire: tag, length, body. */
  function EncodeFrame(f: Frame): (r: bytes)
    requires WellFormedFrame(f)
    ensures |r| == 2 + |f.body|
  {
    [f.tag as byte, |f.body| as byte] + f.body
  }

  function EncodeFrames(fs: seq<Frame>): bytes
    requires forall i :: 0 <= i < |fs| ==> WellFormedFrame(fs[i])
  {
    if fs == [] then [] else EncodeFrame(fs[0]) + EncodeFrames(fs[1..])
  }

  /** Bytes at the end of a list that the loop does not frame: too few for a header, or a length that overruns. */
  predicate Trailer(t: bytes)
  {
    |t| < 2 || |t| < 2 + t[1] as nat
  }

  /** The wire form of f sits in b at o. */
  ghost predicate FrameEncodedAt(b: bytes, o: nat, f: Frame)
    requires WellFormedFrame(f)
  {
    o + 2 + |f.body| <= |b| && b[o..o + 2 + |f.body|] == EncodeFrame(f)
  }

  /** The frames, one after another, from o up to e. */
  ghost predicate FramesLaidOut(b: bytes, o: nat, fs: seq<Frame>, e: nat)
    decreases |fs|
  {
    if fs == [] then o == e
    else
      WellFormedFrame(fs[0]) && FrameEncodedAt(b, o, fs[0]) && FramesLaidOut(b, o + 2 + |fs[0].body|, fs[1..], e)
  }

  /** An encoded frame found at o is cut out again. */
  lemma {:induction false} FrameWindow(b: bytes, o: nat, f: Frame)
    requires WellFormedFrame(f)
    requires FrameEncodedAt(b, o, f)
    ensures FrameAt(b, o) == Next(f, o + 2 + |f.body|)
  {
    var w := b[o..o + 2 + |f.body|];
    assert b[o] == w[0] && b[o + 1] == w[1];
    assert b[o + 2..o + 2 + |f.body|] == w[2..];
  }

  /** One encoded frame in front of whatever the loop makes of the bytes after it. */
  lemma {:induction false} FramesStep(b: bytes, o: nat, f: Frame)
    requires WellFormedFrame(f)
    requires FrameEncodedAt(b, o, f)
    ensures Frames(b, o) == [f] + Frames(b, o + 2 + |f.body|)
  {
    FrameWindow(b, o, f);
  }

  lemma {:induction false} LaidOutOf(b: bytes, o: nat, fs: seq<Frame>, e: nat)
    requires forall i :: 0 <= i < |fs| ==> WellFormedFrame(fs[i])
    requires o <= e <= |b| && b[o..e] == EncodeFrames(fs)
    ensures FramesLaidOut(b, o, fs, e)
    decreases |fs|
  {
    if fs != [] {
      var x := EncodeFrame(fs[0]);
      var m := o + |x|;
      assert b[o..e] == x + EncodeFrames(fs[1..]);
      assert b[o..m] == b[o..e][..|x|];
      assert b[m..e] == b[o..e][|x|..];
      LaidOutOf(b, m, fs[1..], e);
    }
  }

  lemma {:induction false} FramesOfLaidOut(b: bytes, o: nat, fs: seq<Frame>, e: nat)
    requires FramesLaidOut(b, o, fs, e) && e <= |b|
    ensures Frames(b, o) == fs + Frames(b, e)
    decreases |fs|
  {
    if fs == [] {
    } else {
      var f, tail := fs[0], fs[1..];
      assert fs == [f] + tail;
      var m := o + 2 + |f.body|;
      FramesStep(b, o, f);
      FramesOfLaidOut(b, m, tail, e);
      ConcatAssoc([f], tail, Frames(b, e));
    }
  }

  /** Framing encoded descriptors followed by a trailer the loop stops at gives the list back. */
  lemma {:induction false} FramesRoundTrip(fs: seq<Frame>, t: bytes)
    requires forall i :: 0 <= i < |fs| ==> WellFormedFrame(fs[i])
    requires Trailer(t)
    ensures Frames(EncodeFrames(fs) + t, 0) == fs
  {
    var x := EncodeFrames(fs);
    var b := x + t;
    assert b[0..|x|] == x;
    LaidOutOf(b, 0, fs, |x|);
    FramesOfLaidOut(b, 0, fs, |x|);
    assert FrameAt(b, |x|) == Stop by {
      if |t| >= 2 {
        assert b[|x| + 1] == t[1];
      }
    }
    assert fs + [] == fs;
  }

  /**
   * The descriptors of an encoded list are the readers' results on its
   * bodies, in order; a trailing header whose length overruns the buffer is
   * dropped.
   */
  lemma {:induction false} DescriptorsOfEncoded(fs: seq<Frame>, t: bytes)
    requires forall i :: 0 <= i < |fs| ==> WellFormedFrame(fs[i])
    requires Trailer(t)
    ensures DescriptorsFrom(EncodeFrames(fs) + t, 0) == Collect(fs)
  {
    FramesRoundTrip(fs, t);
    DescriptorsFromFrames(EncodeFrames(fs) + t, 0);
  }

  // ---------------------------------------------------------------------
  // The loop

  /** The `switch`, calling the reader methods for the readers with loops. */
  method ReadDescriptor(tag: nat, desc: bytes) returns (r: Decoded<Descriptor>)
    ensures r == DescriptorOf(tag, desc)
  {
    if tag == CA_DESCRIPTOR {
      r := FromOption(CAOf(desc));
    } else if tag == ACCESS_CONTROL_DESCRIPTOR {
      r := FromOption(AccessControlOf(desc));
    } else if tag == CA_SERVICE_DESCRIPTOR {
      var x := ReadCAServiceDescriptor(desc);
      r := FromOption(x);
    } else if tag == DIGITAL_COPY_CONTROL_DESCRIPTOR {
      var x := ReadDigitalCopyControlDescriptor(desc);
      r := FromOption(x);
    } else if tag == EMERGENCY_INFORMATION_DESCRIPTOR {
      var services := ReadEmergencyInformationDescriptor(desc);
      r := Ok(EmergencyInformation(services));
    } else if tag == CONTENT_AVAILABILITY_DESCRIPTOR {
      r := FromOption(ContentAvailabilityOf(desc));
    } else if tag == STREAM_IDENTIFIER_DESCRIPTOR {
      r := FromOption(StreamIdentifierOf(desc));
    } else if tag == HIERARCHICAL_TRANSMISSION_DESCRIPTOR {
      r := FromOption(HierarchicalTransmissionOf(desc));
    } else if tag == DATA_COMPONENT_DESCRIPTOR {
      r := FromOption(DataComponentOf(desc));
    } else if tag == VIDEO_DECODE_CONTROL_DESCRIPTOR {
      r := FromOption(VideoDecodeControlOf(desc));
    } else if tag == NETWORK_NAME_DESCRIPTOR {
      r := Ok(NetworkName(NetworkNameOf(desc)));
    } else if tag == SYSTEM_MANAGEMENT_DESCRIPTOR {
      var x := SystemManagementOf(desc);
      r := if x.Some? then Ok(SystemManagement(x.value)) else Undefined;
    } else if tag == CA_EMM_TS_DESCRIPTOR {
      r := FromOption(CAEMMTSOf(desc));
    } else if tag == SERVICE_LIST_DESCRIPTOR {
      var services := ReadServiceListDescriptor(desc);
      r := Ok(ServiceList(services));
    } else if tag == SATELLITE_DELIVERY_SYSTEM_DESCRIPTOR {
      var x := SatelliteDeliverySystemOf(desc);
      r := if x.Some? then Ok(SatelliteDeliverySystem(x.value)) else Undefined;
    } else if tag == TERRESTRIAL_DELIVERY_SYSTEM_DESCRIPTOR {
      var x := ReadTerrestrialDeliverySystemDescriptor(desc);
      r := FromOption(x);
    } else if tag == PARTIAL_RECEPTION_DESCRIPTOR {
      var x := ReadPartialReceptionDescriptor(desc);
      r := FromOption(x);
    } else if tag == TS_INFORMATION_DESCRIPTOR {
      var x := ReadTSInformationDescriptor(desc);
      r := FromOption(x);
    } else if tag == SI_PARAMETER_DESCRIPTOR {
      var x := ReadSIParameterDescriptor(desc);
      r := FromOption(x);
    } else if tag == BROADCASTER_NAME_DESCRIPTOR {
      r := FromOption(BroadcasterNameOf(desc));
    } else if tag == EXTENDED_BROADCASTER_DESCRIPTOR {
      r := ReadExtendedBroadcasterDescriptor(desc);
    } else if tag == SERVICE_DESCRIPTOR {
      r := FromOption(ServiceOf(desc));
    } else if tag == CA_CONTRACT_INFO_DESCRIPTOR {
      var x := ReadCAContractInfoDescriptor(desc);
      r := FromOption(x);
    } else if tag == LOGO_TRANSMISSION_DESCRIPTOR {
      r := FromOption(LogoTransmissionOf(desc));
    } else if tag == LINKAGE_DESCRIPTOR {
      r := FromOption(LinkageOf(desc));
    } else if tag == SHORT_EVENT_DESCRIPTOR {
      r := FromOption(ShortEventOf(desc));
    } else if tag == COMPONENT_DESCRIPTOR {
      r := FromOption(ComponentOf(desc));
    } else if tag == AUDIO_COMPONENT_DESCRIPTOR {
      r := FromOption(AudioComponentOf(desc));
    } else if tag == DATA_CONTENT_DESCRIPTOR {
      r := FromOption(DataContentOf(desc));
    } else if tag == CONTENT_DESCRIPTOR {
      var items := ReadContentDescriptor(desc);
      r := Ok(ContentDescriptor(items));
    } else if tag == PARENTAL_RATING_DESCRIPTOR {
      var ratings := ReadParentalRatingDescriptor(desc);
      r := Ok(ParentalRatingDescriptor(ratings));
    } else if tag == EVENT_GROUP_DESCRIPTOR {
      var x := ReadEventGroupDescriptor(desc);
      r := FromOption(x);
    } else if tag == COMPONENT_GROUP_DESCRIPTOR {
      var x := ReadComponentGroupDescriptor(desc);
      r := FromOption(x);
    } else if tag == SERIES_DESCRIPTOR {
      r := FromOption(SeriesOf(desc));
    } else if tag == EXTENDED_EVENT_DESCRIPTOR {
      var x := ReadExtendedEventDescriptor(desc);
      r := FromOption(x);
    } else if tag == LOCAL_TIME_OFFSET_DESCRIPTOR {
      var offsets := ReadLocalTimeOffsetDescriptor(desc);
      r := Ok(LocalTimeOffsetDescriptor(offsets));
    } else if tag == STUFFING_DESCRIPTOR {
      r := FromOption(StuffingOf(desc));
    } else {
      r := Undefined;
    }
  }

  /** The tag and length of the loop body, and the body when it fits. */
  method ReadFrame(reader: BinaryReader) returns (step: FrameStep)
    requires reader.offset >= 0 && reader.CanRead(2)
    modifies reader
    ensures step == FrameAt(reader.buffer, old(reader.offset))
    ensures step.Next? ==> reader.offset == step.next
  {
    var tag := reader.ReadUint8();
    var length := reader.ReadUint8();
    if !reader.CanRead(length) {
      return Stop;
    }
    var payload := reader.Subarray(length);
    step := Next(Frame(tag, payload), reader.offset);
  }

  method ReadDescriptors(buffer: bytes) returns (r: Decoded<seq<Descriptor>>)
    ensures r == DescriptorsFrom(buffer, 0)
  {
    var reader := new BinaryReader(buffer, 0);
    ghost var b := buffer;
    var descriptors: seq<Descriptor> := [];
    ChainEmpty(DescriptorsFrom(b, 0));
    while reader.CanRead(2)
      invariant reader.buffer == b && reader.offset >= 0
      invariant Chain(descriptors, DescriptorsFrom(b, reader.offset)) == DescriptorsFrom(b, 0)
      decreases |b| - reader.offset
    {
      var step := ReadFrame(reader);
      if step.Stop? {
        ChainDone(descriptors);
        return Ok(descriptors);
      }
      var desc := ReadDescriptor(step.frame.tag, step.frame.body);
      if desc.Thrown? {
        return Thrown;
      }
      if desc.Ok? {
        ChainAppend(descriptors, desc.value, DescriptorsFrom(b, reader.offset));
        descriptors := descriptors + [desc.value];
      }
    }
    ChainDone(descriptors);
    r := Ok(descriptors);
  }

  /** The descriptor list in the n bytes from p, cut as `subarray` cuts them (clamped at the end). */
  function DescriptorsIn(b: bytes, p: int, n: int): (r: Decoded<seq<Descriptor>>)
    ensures !r.Undefined?
  {
    DescriptorsFrom(Js.Slice(b, p, p + n), 0)
  }

  /** `readDescriptors(reader.subarray(n))`. */
  method ReadDescriptorsIn(reader: BinaryReader, n: int) returns (r: Decoded<seq<Descriptor>>)
    modifies reader
    ensures reader.offset == old(reader.offset) + n
    ensures r == DescriptorsIn(reader.buffer, old(reader.offset), n)
  {
    var desc := reader.Subarray(n);
    r := ReadDescriptors(desc);
  }
}
