// The per-tag readers of the legacy MPEG-2 TS descriptors
// (src/ts/si-descriptor.ts).  Each reader gets the descriptor's body and
// returns a record or `undefined`; only the extended broadcaster reader can
// raise an exception.
module TsDescriptors {
  import opened Js
  import opened Decoding
  import opened Utils
  import opened SiDescriptor

  const LOGO_TRANSMISSION_TYPE_DIRECT := 1
  const LOGO_TRANSMISSION_TYPE_INDIRECT := 2
  const LOGO_TRANSMISSION_TYPE_SIMPLE := 3
  const EVENT_GROUP_TYPE_RELAY_TO_OTHER_NETWORK := 0x4
  const EVENT_GROUP_TYPE_MOVEMENT_FROM_OTHER_NETWORK := 0x5

  datatype ComponentControl = ComponentControl(
    componentTag: nat,
    digitalRecordingControlData: nat,
    copyControlType: nat,
    apsControlData: Option<nat>,
    maximumBitRate: Option<nat>)

  datatype TransmissionType = TransmissionType(transmissionTypeInfo: nat, serviceIdList: seq<nat>)

  datatype SITableParameter = SITableParameter(tableId: nat, tableDescription: bytes)

  datatype BroadcasterEntry = BroadcasterEntry(originalNetworkId: nat, broadcasterId: nat)

  /** The part of an extended broadcaster descriptor present for broadcaster type 1. */
  datatype TerrestrialBroadcaster = TerrestrialBroadcaster(
    terrestrialBroadcasterId: nat,
    affiliationIdList: bytes,
    broadcasters: seq<BroadcasterEntry>)

  datatype Logo =
    | Direct(logoId: nat, logoVersion: nat, downloadDataId: nat)
    | Indirect(logoId: nat)
    | Simple(logoChar: bytes)

  datatype ContentItem = ContentItem(contentNibbleLevel1: nat, contentNibbleLevel2: nat, userNibble: nat)

  datatype ParentalRating = ParentalRating(countryCode: nat, rating: nat)

  datatype EventGroupEvent = EventGroupEvent(serviceId: nat, eventId: nat)

  datatype OtherNetworkEvent = OtherNetworkEvent(
    originalNetworkId: nat, transportStreamId: nat, serviceId: nat, eventId: nat)

  datatype CAUnit = CAUnit(caUnitId: nat, componentTags: bytes)

  datatype ComponentGroup = ComponentGroup(
    componentGroupId: nat, caUnits: seq<CAUnit>, totalBitRate: Option<nat>, text: bytes)

  datatype ExtendedEventItem = ExtendedEventItem(itemDescription: bytes, item: bytes)

  datatype LocalTimeOffset = LocalTimeOffset(
    countryCode: nat,
    countryRegionId: nat,
    localTimeOffsetPolarity: bool,
    localTimeOffset: nat,
    timeOfChange: nat,
    nextTimeOffset: nat)

  /** The records `readDescriptors` can return, one constructor per reader. */
  datatype Descriptor =
    | CADescriptor(caSystemId: nat, caPID: nat, privateData: bytes)
    | AccessControlDescriptor(caSystemId: nat, transmissionType: nat, pid: nat, privateData: bytes)
    | CAServiceDescriptor(caSystemId: nat, caBroadcasterGroupId: nat, messageControl: nat, serviceIdList: seq<nat>)
    | DigitalCopyControlDescriptor(digitalRecordingControlData: nat, copyControlType: nat,
                                   apsControlData: Option<nat>, maximumBitRate: Option<nat>,
                                   componentControls: Option<seq<ComponentControl>>)
    | EmergencyInformation(emergencyServices: seq<EmergencyInformationService>)
    | ContentAvailabilityDescriptor(copyRestrictionMode: bool, imageConstraintToken: bool, retentionMode: bool,
                                    retentionState: nat, encryptionMode: bool)
    | StreamIdentifierDescriptor(componentTag: nat)
    | DataComponentDescriptor(dataComponentId: nat, additionalDataComponentInfo: bytes)
    | VideoDecodeControlDescriptor(stillPictureFlag: bool, sequenceEndCodeFlag: bool, videoEncodeFormat: nat)
    | NetworkName(networkName: NetworkNameDescriptor)
    | SystemManagement(systemManagement: SystemManagementDescriptor)
    | CAEMMTSDescriptor(caSystemId: nat, transportStreamId: nat, originalNetworkId: nat, powerSupplyPeriod: nat)
    | ServiceList(serviceList: seq<ServiceListEntry>)
    | SatelliteDeliverySystem(satellite: SatelliteDeliverySystemDescriptor)
    | TerrestrialDeliverySystemDescriptor(areaCode: nat, guardInterval: nat, transmissionMode: nat, frequencies: seq<nat>)
    | PartialReceptionDescriptor(serviceIdList: seq<nat>)
    | TSInformationDescriptor(remoteControlKeyId: nat, tsName: bytes, transmissionTypes: seq<TransmissionType>)
    | SIParameterDescriptor(parameterVersion: nat, updateTime: nat, tableParameters: seq<SITableParameter>)
    | BroadcasterNameDescriptor(name: bytes)
    | ExtendedBroadcasterDescriptor(broadcasterType: nat, terrestrialBroadcaster: Option<TerrestrialBroadcaster>)
    | ServiceDescriptor(serviceType: nat, serviceProviderName: bytes, serviceName: bytes)
    | CAContractInfoDescriptor(caSystemId: nat, caUnitId: nat, components: bytes,
                               contractVerificationInfo: bytes, feeName: bytes)
    | LogoTransmissionDescriptor(logo: Logo)
    | LinkageDescriptor(transportStreamId: nat, originalNetworkId: nat, serviceId: nat, linkageType: nat,
                        privateData: bytes)
    | ShortEventDescriptor(iso639LanguageCode: nat, eventName: bytes, text: bytes)
    | ComponentDescriptor(streamContent: nat, componentType: nat, componentTag: nat, iso639LanguageCode: nat,
                          text: bytes)
    | AudioComponentDescriptor(streamContent: nat, componentType: nat, componentTag: nat, streamType: nat,
                               simulcastGroupTag: nat, mainComponentFlag: bool, qualityIndicator: nat,
                               samplingRate: nat, iso639LanguageCode: nat,
                               esMultiLingualISO639LanguageCode: Option<nat>, text: bytes)
    | DataContentDescriptor(dataComponentId: nat, entryComponent: nat, selector: bytes,
                            componentReferences: bytes, iso639LanguageCode: nat, text: bytes)
    | ContentDescriptor(items: seq<ContentItem>)
    | ParentalRatingDescriptor(ratings: seq<ParentalRating>)
    | EventGroupDescriptor(groupType: nat, events: seq<EventGroupEvent>,
                           otherNetworkEvents: Option<seq<OtherNetworkEvent>>, groupPrivateData: Option<bytes>)
    | ComponentGroupDescriptor(componentGroupType: nat, groups: seq<ComponentGroup>)
    | SeriesDescriptor(seriesId: nat, repeatLabel: nat, programPattern: nat, expireDateValidFlag: bool,
                       expireDate: nat, episodeNumber: nat, lastEpisodeNumber: nat, seriesName: bytes)
    | ExtendedEventDescriptor(descriptorNumber: nat, lastDescriptorNumber: nat, iso639LanguageCode: nat,
                              eventItems: seq<ExtendedEventItem>, text: bytes)
    | LocalTimeOffsetDescriptor(offsets: seq<LocalTimeOffset>)
    | StuffingDescriptor

  // ---------------------------------------------------------------------
  // Counted loops that may end in `return undefined`

  /** A list read so far in front of the rest of a counted loop, which may fail. */
  function Then<T>(prefix: seq<T>, rest: Option<Field<seq<T>>>): (r: Option<Field<seq<T>>>)
    ensures r.Some? <==> rest.Some?
    ensures r.Some? ==> r.value == Field(prefix + rest.value.value, rest.value.next)
  {
    match rest
    case None => None
    case Some(f) => Some(Field(prefix + f.value, f.next))
  }

  lemma {:induction false} ThenEmpty<T>(rest: Option<Field<seq<T>>>)
    ensures Then([], rest) == rest
  {
    if rest.Some? {
      assert [] + rest.value.value == rest.value.value;
    }
  }

  lemma {:induction false} ThenAppend<T>(prefix: seq<T>, x: T, rest: Option<Field<seq<T>>>)
    ensures Then(prefix, Then([x], rest)) == Then(prefix + [x], rest)
  {
    if rest.Some? {
      assert prefix + ([x] + rest.value.value) == prefix + [x] + rest.value.value;
    }
  }

  /**
   * A counted loop whose every item read may fail: n items from o, each
   * read by `item`, or None as soon as one of them is missing.
   */
  function Counted<T>(item: (bytes, nat) -> Option<Field<T>>, d: bytes, o: nat, n: nat): (r: Option<Field<seq<T>>>)
    decreases n
  {
    if n == 0 then Some(Field([], o))
    else
      match item(d, o)
      case None => None
      case Some(x) => Then([x.value], Counted(item, d, x.next, n - 1))
  }

  /** A counted loop that completes has read exactly its count of items. */
  lemma {:induction false} CountedLength<T>(item: (bytes, nat) -> Option<Field<T>>, d: bytes, o: nat, n: nat)
    ensures Counted(item, d, o, n).Some? ==> |Counted(item, d, o, n).value.value| == n
    decreases n
  {
    if n > 0 && item(d, o).Some? {
      CountedLength(item, d, item(d, o).value.next, n - 1);
    }
  }

  /** An item read never moves the cursor back. */
  ghost predicate Advances<T>(item: (bytes, nat) -> Option<Field<T>>, d: bytes)
  {
    forall o: nat :: item(d, o).Some? ==> o <= item(d, o).value.next
  }

  /** Cutting d at k loses every item that ends after k and keeps every item that ends before it. */
  ghost predicate PrefixStable<T>(item: (bytes, nat) -> Option<Field<T>>, d: bytes, k: nat)
    requires k <= |d|
  {
    forall o: nat :: o <= k && item(d, o).Some? ==>
      if item(d, o).value.next <= k then item(d[..k], o) == item(d, o) else item(d[..k], o).None?
  }

  lemma {:induction false} CountedAdvances<T>(item: (bytes, nat) -> Option<Field<T>>, d: bytes, o: nat, n: nat)
    requires Advances(item, d)
    ensures Counted(item, d, o, n).Some? ==> o <= Counted(item, d, o, n).value.next
    decreases n
  {
    if n > 0 && item(d, o).Some? {
      CountedAdvances(item, d, item(d, o).value.next, n - 1);
    }
  }

  /** A counted loop that ends by k reads the same from d cut at k. */
  lemma {:induction false} CountedKept<T>(item: (bytes, nat) -> Option<Field<T>>, d: bytes, o: nat, n: nat, k: nat)
    requires o <= k <= |d| && Advances(item, d) && PrefixStable(item, d, k)
    requires Counted(item, d, o, n).Some? && Counted(item, d, o, n).value.next <= k
    ensures Counted(item, d[..k], o, n) == Counted(item, d, o, n)
    decreases n
  {
    if n > 0 {
      var x := item(d, o).value;
      CountedAdvances(item, d, x.next, n - 1);
      CountedKept(item, d, x.next, n - 1, k);
    }
  }

  /** A counted loop that ends after k is undefined on d cut at k. */
  lemma {:induction false} CountedLost<T>(item: (bytes, nat) -> Option<Field<T>>, d: bytes, o: nat, n: nat, k: nat)
    requires o <= k <= |d| && Advances(item, d) && PrefixStable(item, d, k)
    requires Counted(item, d, o, n).Some? && k < Counted(item, d, o, n).value.next
    ensures Counted(item, d[..k], o, n).None?
    decreases n
  {
    if n > 0 {
      var x := item(d, o).value;
      if x.next <= k {
        CountedLost(item, d, x.next, n - 1, k);
      }
    }
  }

  /** A slice inside a prefix of b is the same slice of b. */
  lemma {:induction false} SliceOfPrefix(d: bytes, k: nat, a: nat, b: nat)
    requires a <= b <= k <= |d|
    ensures Js.Slice(d[..k], a, b) == Js.Slice(d, a, b)
  {
    assert d[..k][a..b] == d[a..b];
  }

  lemma {:induction false} ThenDone<T>(prefix: seq<T>, next: nat)
    ensures Then(prefix, Some(Field([], next))) == Some(Field(prefix, next))
  {
    assert prefix + [] == prefix;
  }

  // ---------------------------------------------------------------------
  // Straight-line readers

  /** `readCADescriptor`: four bytes at least; the PID is the low 13 bits of the second word. */
  function CAOf(d: bytes): (r: Option<Descriptor>)
    ensures r.Some? <==> |d| >= 4
    ensures r.Some? ==> r.value.CADescriptor? && r.value.caPID < 0x2000 && |r.value.privateData| == |d| - 4
  {
    if |d| < 4 then None
    else Some(CADescriptor(U16(d, 0), U16(d, 2) % 0x2000, Js.Slice(d, 4, |d|)))
  }

  /** The three reserved bits above the PID are dropped and everything else is read back. */
  lemma {:induction false} CARoundTrip(caSystemId: nat, reserved: nat, pid: nat, privateData: bytes)
    requires caSystemId < 0x1_0000 && reserved < 8 && pid < 0x2000
    ensures CAOf(Be16(caSystemId) + Be16(reserved * 0x2000 + pid) + privateData)
            == Some(CADescriptor(caSystemId, pid, privateData))
  {
    var d := Be16(caSystemId) + Be16(reserved * 0x2000 + pid) + privateData;
    U16Shift([], Be16(caSystemId), Be16(reserved * 0x2000 + pid) + privateData);
    assert [] + Be16(caSystemId) + (Be16(reserved * 0x2000 + pid) + privateData) == d;
    U16Shift(Be16(caSystemId), Be16(reserved * 0x2000 + pid), privateData);
    DivExact(reserved, pid, 0x2000);
    assert U16(d, 0) == caSystemId && U16(d, 2) % 0x2000 == pid;
    assert Js.Slice(d, 4, |d|) == privateData;
  }

  /** `readAccessControlDescriptor`: like the CA descriptor, with the top three bits as the transmission type. */
  function AccessControlOf(d: bytes): (r: Option<Descriptor>)
    ensures r.Some? <==> |d| >= 4
    ensures r.Some? ==> r.value.AccessControlDescriptor? && r.value.transmissionType < 8 && r.value.pid < 0x2000
  {
    if |d| < 4 then None
    else
      var h := U16(d, 2);
      Some(AccessControlDescriptor(U16(d, 0), h / 0x2000, h % 0x2000, Js.Slice(d, 4, |d|)))
  }

  /** The 16-bit word splits into its 3-bit transmission type and 13-bit PID. */
  lemma {:induction false} AccessControlRoundTrip(caSystemId: nat, transmissionType: nat, pid: nat, privateData: bytes)
    requires caSystemId < 0x1_0000 && transmissionType < 8 && pid < 0x2000
    ensures AccessControlOf(Be16(caSystemId) + Be16(transmissionType * 0x2000 + pid) + privateData)
            == Some(AccessControlDescriptor(caSystemId, transmissionType, pid, privateData))
  {
    var d := Be16(caSystemId) + Be16(transmissionType * 0x2000 + pid) + privateData;
    U16Shift([], Be16(caSystemId), Be16(transmissionType * 0x2000 + pid) + privateData);
    assert [] + Be16(caSystemId) + (Be16(transmissionType * 0x2000 + pid) + privateData) == d;
    U16Shift(Be16(caSystemId), Be16(transmissionType * 0x2000 + pid), privateData);
    DivExact(transmissionType, pid, 0x2000);
    assert U16(d, 0) == caSystemId && U16(d, 2) / 0x2000 == transmissionType && U16(d, 2) % 0x2000 == pid;
    assert Js.Slice(d, 4, |d|) == privateData;
  }

  /** `readContentAvailabilityDescriptor`: five fields of byte 0. */
  function ContentAvailabilityOf(d: bytes): (r: Option<Descriptor>)
    ensures r.Some? <==> |d| >= 1
    ensures r.Some? ==> r.value.ContentAvailabilityDescriptor? && r.value.retentionState < 8
  {
    if |d| < 1 then None
    else
      var b := d[0];
      Some(ContentAvailabilityDescriptor(b / 0x40 % 2 == 1, b / 0x20 % 2 == 1, b / 0x10 % 2 == 1, b / 2 % 8,
                                         b % 2 == 1))
  }

  /** `readStreamIdentifierDescriptor`: the component tag is byte 0. */
  function StreamIdentifierOf(d: bytes): (r: Option<Descriptor>)
    ensures r.Some? <==> |d| >= 1
    ensures r.Some? ==> r.value == StreamIdentifierDescriptor(d[0])
  {
    if |d| < 1 then None else Some(StreamIdentifierDescriptor(d[0]))
  }

  /**
   * `readHierarchicalTransmissionDescriptor` reads its fields but has no
   * `return` statement, so it yields undefined on every input.
   */
  function HierarchicalTransmissionOf(d: bytes): (r: Option<Descriptor>)
    ensures r.None?
  {
    None
  }

  /** `readDataComponentDescriptor`: a 16-bit id and the rest of the body. */
  function DataComponentOf(d: bytes): (r: Option<Descriptor>)
    ensures r.Some? <==> |d| >= 2
  {
    if |d| < 2 then None else Some(DataComponentDescriptor(U16(d, 0), Js.Slice(d, 2, |d|)))
  }

  lemma {:induction false} DataComponentRoundTrip(dataComponentId: nat, info: bytes)
    requires dataComponentId < 0x1_0000
    ensures DataComponentOf(Be16(dataComponentId) + info) == Some(DataComponentDescriptor(dataComponentId, info))
  {
    var d := Be16(dataComponentId) + info;
    U16Shift([], Be16(dataComponentId), info);
    assert [] + Be16(dataComponentId) + info == d;
    assert Js.Slice(d, 2, |d|) == info;
  }

  /** `readVideoDecodeControlDescriptor`: two flags and a 4-bit format in byte 0. */
  function VideoDecodeControlOf(d: bytes): (r: Option<Descriptor>)
    ensures r.Some? <==> |d| >= 1
    ensures r.Some? ==> r.value.VideoDecodeControlDescriptor? && r.value.videoEncodeFormat < 16
  {
    if |d| < 1 then None
    else Some(VideoDecodeControlDescriptor(d[0] >= 0x80, d[0] / 0x40 % 2 == 1, d[0] / 4 % 16))
  }

  /** `readCAEMMTSDescriptor`: three 16-bit ids and a byte, seven bytes at least. */
  function CAEMMTSOf(d: bytes): (r: Option<Descriptor>)
    ensures r.Some? <==> |d| >= 7
  {
    if |d| < 2 + 2 + 2 + 1 then None
    else Some(CAEMMTSDescriptor(U16(d, 0), U16(d, 2), U16(d, 4), d[6]))
  }

  /** `readBroadcasterNameDescriptor`: the whole body, for any length. */
  function BroadcasterNameOf(d: bytes): (r: Option<Descriptor>)
    ensures r == Some(BroadcasterNameDescriptor(d))
  {
    var name := Js.Slice(d, 0, |d|);
    assert name == d[..];
    Some(BroadcasterNameDescriptor(name))
  }

  /**
   * `readExtendedBroadcasterDescriptor`.  For broadcaster type 1 the id and
   * count bytes are read without a bound check, so a body shorter than four
   * bytes raises a RangeError; the private data is read and then left out
   * of the result.
   */
  function ExtendedBroadcasterOf(d: bytes): (r: Decoded<Descriptor>)
    ensures r.Thrown? <==> |d| >= 1 && d[0] / 0x10 == 1 && |d| < 4
    ensures r.Ok? ==> |d| >= 1 && r.value.ExtendedBroadcasterDescriptor? && r.value.broadcasterType == d[0] / 0x10
                      && (r.value.terrestrialBroadcaster.Some? <==> r.value.broadcasterType == 1)
  {
    if |d| < 1 then Undefined
    else
      var broadcasterType := d[0] / 0x10;
      if broadcasterType != 1 then Ok(ExtendedBroadcasterDescriptor(broadcasterType, None))
      else if |d| < 1 + 2 + 1 then Thrown
      else
        var h := d[3];
        var affiliations := h / 0x10;
        var count := h % 0x10;
        if |d| < affiliations + 4 then Undefined
        else if |d| < count * 3 + (4 + affiliations) then Undefined
        else
          Ok(ExtendedBroadcasterDescriptor(1, Some(TerrestrialBroadcaster(
            U16(d, 1), d[4..4 + affiliations], Broadcasters(d, 4 + affiliations, count)))))
  }

  /** The broadcaster `for` loop: n entries of a 16-bit network id and a byte at o. */
  function Broadcasters(d: bytes, o: nat, n: nat): (r: seq<BroadcasterEntry>)
    requires o + 3 * n <= |d|
    ensures |r| == n
  {
    if n == 0 then []
    else Broadcasters(d, o, n - 1) + [BroadcasterEntry(U16(d, o + 3 * (n - 1)), d[o + 3 * (n - 1) + 2])]
  }

  /** `readServiceDescriptor`: a service type and two length-prefixed names. */
  function ServiceOf(d: bytes): (r: Option<Descriptor>)
  {
    if |d| < 1 + 1 then None
    else
      var providerLength := d[1] as nat;
      if |d| < providerLength + 2 then None
      else
        var p := 2 + providerLength;
        if |d| < 1 + p then None
        else
          var nameLength := d[p] as nat;
          if |d| < nameLength + (p + 1) then None
          else Some(ServiceDescriptor(d[0], Js.Slice(d, 2, p), Js.Slice(d, p + 1, p + 1 + nameLength)))
  }

  /** The service descriptor reads back both names, whatever follows them. */
  lemma {:induction false} ServiceRoundTrip(serviceType: nat, provider: bytes, name: bytes, rest: bytes)
    requires serviceType < 0x100 && |provider| < 0x100 && |name| < 0x100
    ensures ServiceOf([serviceType as byte, |provider| as byte] + provider + [|name| as byte] + name + rest)
            == Some(ServiceDescriptor(serviceType, provider, name))
  {
    var d := [serviceType as byte, |provider| as byte] + provider + [|name| as byte] + name + rest;
    var p := 2 + |provider|;
    assert d[2..p] == provider;
    assert d[p] == |name| as byte;
    assert d[p + 1..p + 1 + |name|] == name;
  }

  /** `readLogoTransmissionDescriptor`: transmission types 1, 2 and 3 only. */
  function LogoTransmissionOf(d: bytes): (r: Option<Descriptor>)
    ensures r.Some? ==> |d| >= 1 && d[0] in {1, 2, 3} && r.value.LogoTransmissionDescriptor?
    ensures r.Some? && r.value.logo.Direct? ==> d[0] == 1 && r.value.logo.logoId < 0x200 && r.value.logo.logoVersion < 0x1000
    ensures r.Some? && r.value.logo.Indirect? ==> d[0] == 2 && r.value.logo.logoId < 0x200
    ensures r.Some? && r.value.logo.Simple? ==> d[0] == 3 && r.value.logo.logoChar == d[1..]
    ensures r.None? <==> |d| < 1 || d[0] !in {1, 2, 3} || (d[0] == 1 && |d| < 7) || (d[0] == 2 && |d| < 3)
  {
    if |d| < 1 then None
    else if d[0] == LOGO_TRANSMISSION_TYPE_DIRECT then
      if |d| < 1 + 2 + 2 + 2 then None
      else Some(LogoTransmissionDescriptor(Direct(U16(d, 1) % 0x200, U16(d, 3) % 0x1000, U16(d, 5))))
    else if d[0] == LOGO_TRANSMISSION_TYPE_INDIRECT then
      if |d| < 1 + 2 then None else Some(LogoTransmissionDescriptor(Indirect(U16(d, 1) % 0x200)))
    else if d[0] == LOGO_TRANSMISSION_TYPE_SIMPLE then
      Some(LogoTransmissionDescriptor(Simple(Js.Slice(d, 1, |d|))))
    else None
  }

  /** `readLinkageDescriptor`: three 16-bit ids, a type byte and the rest. */
  function LinkageOf(d: bytes): (r: Option<Descriptor>)
    ensures r.Some? <==> |d| >= 7
    ensures r.Some? ==> r.value.LinkageDescriptor? && r.value.privateData == d[7..]
  {
    if |d| < 2 + 2 + 2 + 1 then None
    else Some(LinkageDescriptor(U16(d, 0), U16(d, 2), U16(d, 4), d[6], Js.Slice(d, 7, |d|)))
  }

  /** `readShortEventDescriptor`: a language code, then an event name and a text, each length-prefixed. */
  function ShortEventOf(d: bytes): (r: Option<Descriptor>)
  {
    if |d| < 3 + 1 then None
    else
      var nameLength := d[3] as nat;
      if |d| < nameLength + 4 then None
      else
        var p := 4 + nameLength;
        if |d| < 1 + p then None
        else
          var textLength := d[p] as nat;
          if |d| < textLength + (p + 1) then None
          else Some(ShortEventDescriptor(U24(d, 0), Js.Slice(d, 4, p), Js.Slice(d, p + 1, p + 1 + textLength)))
  }

  /** A complete short event descriptor reads back its name and text. */
  lemma {:induction false} ShortEventRoundTrip(language: bytes, name: bytes, text: bytes)
    requires |language| == 3 && |name| < 0x100 && |text| < 0x100
    ensures ShortEventOf(language + [|name| as byte] + name + [|text| as byte] + text)
            == Some(ShortEventDescriptor(U24(language, 0), name, text))
  {
    var d := language + [|name| as byte] + name + [|text| as byte] + text;
    var p := 4 + |name|;
    assert d[0] == language[0] && d[1] == language[1] && d[2] == language[2];
    assert d[3] == |name| as byte;
    assert d[4..p] == name;
    assert d[p] == |text| as byte;
    assert d[p + 1..p + 1 + |text|] == text;
  }

  /** `readComponentDescriptor`: six bytes of fields, then the text to the end. */
  function ComponentOf(d: bytes): (r: Option<Descriptor>)
    ensures r.Some? <==> |d| >= 6
    ensures r.Some? ==> r.value.ComponentDescriptor? && r.value.streamContent < 16 && r.value.text == d[6..]
  {
    if |d| < 1 + 1 + 1 + 3 then None
    else Some(ComponentDescriptor(d[0] % 0x10, d[1], d[2], U24(d, 3), Js.Slice(d, 6, |d|)))
  }

  /**
   * `readAudioComponentDescriptor`: nine bytes of fields, a second language
   * code when the multi-lingual flag is set, then the text to the end.
   */
  function AudioComponentOf(d: bytes): (r: Option<Descriptor>)
    ensures r.Some? <==> |d| >= 9 && (d[5] >= 0x80 ==> |d| >= 12)
    ensures r.Some? ==> r.value.AudioComponentDescriptor?
                        && (r.value.esMultiLingualISO639LanguageCode.Some? <==> d[5] >= 0x80)
                        && r.value.text == (if d[5] >= 0x80 then d[12..] else d[9..])
  {
    if |d| < 1 + 1 + 1 + 1 + 1 + 1 + 3 then None
    else
      var b6 := d[5];
      var multiLingual := b6 >= 0x80;
      if multiLingual && |d| < 9 + 3 then None
      else
        var second := if multiLingual then Some(U24(d, 9)) else None;
        var p := if multiLingual then 12 else 9;
        Some(AudioComponentDescriptor(d[0] % 0x10, d[1], d[2], d[3], d[4], b6 / 0x40 % 2 == 1, b6 / 0x10 % 4,
                                      b6 / 2 % 8, U24(d, 6), second, Js.Slice(d, p, |d|)))
  }

  /**
   * `readDataContentDescriptor`: a length-prefixed selector, a counted list
   * of component references, a language code and a length-prefixed text.
   */
  function DataContentOf(d: bytes): (r: Option<Descriptor>)
    ensures r.Some? ==> |d| >= 9 && |d| >= 9 + d[3] as nat && r.value.DataContentDescriptor?
                        && r.value.selector == d[4..4 + d[3]]
  {
    if |d| < 2 + 1 + 1 then None
    else
      var selectorLength := d[3] as nat;
      if |d| < selectorLength + 4 then None
      else
        var p := 4 + selectorLength;
        if |d| < 1 + 3 + 1 + p then None
        else
          var count := d[p] as nat;
          if |d| < count + (p + 1) then None
          else
            var q := p + 1 + count;
            if |d| < 3 + 1 + q then None
            else
              var textLength := d[q + 3] as nat;
              if |d| < textLength + (q + 4) then None
              else Some(DataContentDescriptor(U16(d, 0), d[2], Js.Slice(d, 4, p), Js.Slice(d, p + 1, q), U24(d, q),
                                              Js.Slice(d, q + 4, q + 4 + textLength)))
  }

  /** The data content wire form: a two-byte component id, the entry component and the byte-counted fields. */
  function DataContentWire(id: bytes, entryComponent: byte, selector: bytes, references: bytes,
                           language: bytes, text: bytes): bytes
    requires |selector| < 0x100 && |references| < 0x100 && |text| < 0x100
  {
    id + [entryComponent, |selector| as byte] + selector + [|references| as byte] + references
    + language + [|text| as byte] + text
  }

  /** Where each field of the wire form sits. */
  lemma {:induction false} DataContentLayout(id: bytes, entryComponent: byte, selector: bytes, references: bytes,
                                             language: bytes, text: bytes, rest: bytes)
    requires |id| == 2 && |selector| < 0x100 && |references| < 0x100 && |language| == 3 && |text| < 0x100
    ensures var d := DataContentWire(id, entryComponent, selector, references, language, text) + rest;
            var p := 4 + |selector|;
            var q := p + 1 + |references|;
            |d| >= q + 4 + |text| && d[2] == entryComponent && d[3] as nat == |selector| && d[p] as nat == |references|
            && d[q + 3] as nat == |text| && U16(d, 0) == U16(id, 0) && U24(d, q) == U24(language, 0)
            && Js.Slice(d, 4, p) == selector && Js.Slice(d, p + 1, q) == references
            && Js.Slice(d, q + 4, q + 4 + |text|) == text
  {
    var a := id + [entryComponent, |selector| as byte] + selector;
    var c := a + [|references| as byte] + references;
    var e := c + language + [|text| as byte];
    var d := e + text + rest;
    assert d == DataContentWire(id, entryComponent, selector, references, language, text) + rest;
    var p := 4 + |selector|;
    var q := p + 1 + |references|;
    assert d[..q + 4] == e && e[..q] == c && c[..p] == a;
    assert a[0] == id[0] && a[1] == id[1] && a[2] == entryComponent && a[3] == |selector| as byte;
    assert a[4..p] == selector && d[4..p] == a[4..p];
    assert c[p] == |references| as byte && c[p + 1..q] == references && d[p + 1..q] == c[p + 1..q];
    assert e[q] == language[0] && e[q + 1] == language[1] && e[q + 2] == language[2] && e[q + 3] == |text| as byte;
    assert d[q + 4..q + 4 + |text|] == text;
    assert U16(d, 0) == U16(id, 0) && U24(d, q) == U24(language, 0);
  }

  /** The data content descriptor reads its wire form back, whatever follows it. */
  lemma {:induction false} DataContentRoundTrip(id: bytes, entryComponent: byte, selector: bytes, references: bytes,
                                                language: bytes, text: bytes, rest: bytes)
    requires |id| == 2 && |selector| < 0x100 && |references| < 0x100 && |language| == 3 && |text| < 0x100
    ensures DataContentOf(DataContentWire(id, entryComponent, selector, references, language, text) + rest)
            == Some(DataContentDescriptor(U16(id, 0), entryComponent, selector, references, U24(language, 0), text))
  {
    DataContentLayout(id, entryComponent, selector, references, language, text, rest);
  }

  /** `readSeriesDescriptor`: eight bytes of fields, then the series name to the end. */
  function SeriesOf(d: bytes): (r: Option<Descriptor>)
    ensures r.Some? <==> |d| >= 8
    ensures r.Some? ==> r.value.SeriesDescriptor? && r.value.episodeNumber < 0x1000 && r.value.lastEpisodeNumber < 0x1000
                        && r.value.seriesName == d[8..]
  {
    if |d| < 2 + 1 + 2 + 3 then None
    else
      var b1 := d[2];
      var b := U24(d, 5);
      Some(SeriesDescriptor(U16(d, 0), b1 / 0x10, b1 / 2 % 8, b1 % 2 == 1, U16(d, 3), b / 0x1000, b % 0x1000,
                            Js.Slice(d, 8, |d|)))
  }

  /** `readStuffingDescriptor`: a record with no fields, whatever the body. */
  function StuffingOf(d: bytes): (r: Option<Descriptor>)
    ensures r == Some(StuffingDescriptor)
  {
    Some(StuffingDescriptor)
  }

  // ---------------------------------------------------------------------
  // Readers with loops

  /** The `while (reader.canRead(2)) list.push(reader.readUint16())` loop from o. */
  function U16List(b: bytes, o: nat): (r: seq<nat>)
    decreases |b| - o
  {
    if |b| < 2 + o then [] else [U16(b, o)] + U16List(b, o + 2)
  }

  /** The loop reads one 16-bit word per whole two bytes, in order; a trailing odd byte is ignored. */
  lemma {:induction false} U16ListSpec(b: bytes, o: nat)
    requires o <= |b|
    ensures |U16List(b, o)| == (|b| - o) / 2
    ensures forall i :: 0 <= i < |U16List(b, o)| ==> o + 2 * i + 2 <= |b| && U16List(b, o)[i] == U16(b, o + 2 * i)
    decreases |b| - o
  {
    if o + 2 <= |b| {
      U16ListSpec(b, o + 2);
      var rest := U16List(b, o + 2);
      assert U16List(b, o) == [U16(b, o)] + rest;
      forall i | 0 <= i < |U16List(b, o)|
        ensures o + 2 * i + 2 <= |b| && U16List(b, o)[i] == U16(b, o + 2 * i)
      {
        if i > 0 {
          assert U16List(b, o)[i] == rest[i - 1];
        }
      }
    }
  }

  method ReadUint16List(reader: BinaryReader) returns (list: seq<nat>)
    requires reader.offset >= 0
    modifies reader
    ensures list == U16List(reader.buffer, old(reader.offset))
  {
    ghost var b, o := reader.buffer, reader.offset;
    list := [];
    while reader.CanRead(2)
      invariant reader.buffer == b && reader.offset >= 0
      invariant list + U16List(b, reader.offset) == U16List(b, o)
      decreases |b| - reader.offset
    {
      ghost var start := reader.offset;
      var v := reader.ReadUint16();
      assert U16List(b, start) == [v] + U16List(b, reader.offset);
      ListStep(list, v, U16List(b, reader.offset));
      list := list + [v];
    }
    assert list + [] == list;
  }

  /** `readCAServiceDescriptor`: four bytes of ids, then 16-bit service ids to the end. */
  function CAServiceOf(d: bytes): (r: Option<Descriptor>)
    ensures r.Some? <==> |d| >= 4
    ensures r.Some? ==> r.value.CAServiceDescriptor? && |r.value.serviceIdList| == (|d| - 4) / 2
  {
    if |d| < 4 then None
    else
      U16ListSpec(d, 4);
      Some(CAServiceDescriptor(U16(d, 0), d[2], d[3], U16List(d, 4)))
  }

  method ReadCAServiceDescriptor(buffer: bytes) returns (r: Option<Descriptor>)
    ensures r == CAServiceOf(buffer)
  {
    var reader := new BinaryReader(buffer, 0);
    if !reader.CanRead(4) {
      return None;
    }
    var caSystemId := reader.ReadUint16();
    var caBroadcasterGroupId := reader.ReadUint8();
    var messageControl := reader.ReadUint8();
    var serviceIdList := ReadUint16List(reader);
    r := Some(CAServiceDescriptor(caSystemId, caBroadcasterGroupId, messageControl, serviceIdList));
  }

  /** `readTerrestrialDeliverySystemDescriptor`: area code, guard interval and mode, then the frequencies. */
  function TerrestrialDeliverySystemOf(d: bytes): (r: Option<Descriptor>)
    ensures r.Some? <==> |d| >= 2
    ensures r.Some? ==> r.value.TerrestrialDeliverySystemDescriptor? && r.value.areaCode < 0x1000
                        && r.value.guardInterval < 4 && r.value.transmissionMode < 4
                        && |r.value.frequencies| == (|d| - 2) / 2
  {
    if |d| < 2 then None
    else
      var h := U16(d, 0);
      U16ListSpec(d, 2);
      Some(TerrestrialDeliverySystemDescriptor(h / 0x10, h / 4 % 4, h % 4, U16List(d, 2)))
  }

  method ReadTerrestrialDeliverySystemDescriptor(buffer: bytes) returns (r: Option<Descriptor>)
    ensures r == TerrestrialDeliverySystemOf(buffer)
  {
    var reader := new BinaryReader(buffer, 0);
    if !reader.CanRead(2) {
      return None;
    }
    var h := reader.ReadUint16();
    var frequencies := ReadUint16List(reader);
    r := Some(TerrestrialDeliverySystemDescriptor(h / 0x10, h / 4 % 4, h % 4, frequencies));
  }

  /** `readPartialReceptionDescriptor`: 16-bit service ids, for any body. */
  function PartialReceptionOf(d: bytes): (r: Option<Descriptor>)
    ensures r.Some? && r.value.PartialReceptionDescriptor? && |r.value.serviceIdList| == |d| / 2
  {
    U16ListSpec(d, 0);
    Some(PartialReceptionDescriptor(U16List(d, 0)))
  }

  method ReadPartialReceptionDescriptor(buffer: bytes) returns (r: Option<Descriptor>)
    ensures r == PartialReceptionOf(buffer)
  {
    var reader := new BinaryReader(buffer, 0);
    var serviceIdList := ReadUint16List(reader);
    r := Some(PartialReceptionDescriptor(serviceIdList));
  }

  /** The APS control data of a copy-control byte: present iff the copy control type is non-zero. */
  function CopyControlAps(f: nat): (r: Option<nat>)
    ensures r.Some? <==> f / 4 % 4 != 0
  {
    if f / 4 % 4 != 0 then Some(f % 4) else None
  }

  /**
   * The component loop of the digital copy control descriptor, on its own
   * sub-cursor over the component region: a tag and a flag byte per entry,
   * plus a rate byte when flagged; a flagged entry without its rate byte
   * ends the loop.
   */
  function ComponentControlsFrom(r: bytes, q: nat): (cs: seq<ComponentControl>)
    decreases |r| - q
  {
    if |r| < 2 + q then []
    else
      var f := r[q + 1];
      var rateFlag := f / 0x20 % 2 == 1;
      if rateFlag && |r| < 1 + (q + 2) then []
      else
        var rate := if rateFlag then Some(r[q + 2] as nat) else None;
        [ComponentControl(r[q], f / 0x40, f / 4 % 4, CopyControlAps(f), rate)]
        + ComponentControlsFrom(r, if rateFlag then q + 3 else q + 2)
  }

  /** Every entry takes two bytes at least, and carries APS data iff its copy control type is non-zero. */
  lemma {:induction false} ComponentControlsSpec(r: bytes, q: nat)
    requires q <= |r|
    ensures |ComponentControlsFrom(r, q)| <= (|r| - q) / 2
    ensures forall i :: 0 <= i < |ComponentControlsFrom(r, q)| ==>
              (ComponentControlsFrom(r, q)[i].apsControlData.Some? <==> ComponentControlsFrom(r, q)[i].copyControlType != 0)
    decreases |r| - q
  {
    if q + 2 <= |r| {
      var f := r[q + 1];
      var rateFlag := f / 0x20 % 2 == 1;
      if !(rateFlag && |r| < q + 3) {
        var next := if rateFlag then q + 3 else q + 2;
        ComponentControlsSpec(r, next);
        var cs := ComponentControlsFrom(r, q);
        var rest := ComponentControlsFrom(r, next);
        assert cs == [cs[0]] + rest;
        forall i | 0 <= i < |cs|
          ensures cs[i].apsControlData.Some? <==> cs[i].copyControlType != 0
        {
          if i > 0 {
            assert cs[i] == rest[i - 1];
          }
        }
      }
    }
  }

  /**
   * `readDigitalCopyControlDescriptor`: the descriptor-level fields of byte
   * 0, a rate byte when flagged, and a length-prefixed component region
   * when flagged.
   */
  function DigitalCopyControlOf(d: bytes): (r: Option<Descriptor>)
    ensures r.Some? ==> |d| >= 1 && r.value.DigitalCopyControlDescriptor?
                        && (r.value.apsControlData.Some? <==> r.value.copyControlType != 0)
                        && (r.value.maximumBitRate.Some? <==> d[0] / 0x20 % 2 == 1)
                        && (r.value.componentControls.Some? <==> d[0] / 0x10 % 2 == 1)
  {
    if |d| < 1 then None
    else
      var f := d[0];
      var rateFlag := f / 0x20 % 2 == 1;
      if rateFlag && |d| < 1 + 1 then None
      else
        var rate := if rateFlag then Some(d[1] as nat) else None;
        var p := if rateFlag then 2 else 1;
        var head := DigitalCopyControlDescriptor(f / 0x40, f / 4 % 4, CopyControlAps(f), rate, None);
        if f / 0x10 % 2 == 0 then Some(head)
        else if |d| < 1 + p then None
        else
          var length := d[p] as nat;
          if |d| < length + (p + 1) then None
          else Some(head.(componentControls := Some(ComponentControlsFrom(Js.Slice(d, p + 1, p + 1 + length), 0))))
  }

  method ReadDigitalCopyControlDescriptor(buffer: bytes) returns (r: Option<Descriptor>)
    ensures r == DigitalCopyControlOf(buffer)
  {
    var reader := new BinaryReader(buffer, 0);
    if !reader.CanRead(1) {
      return None;
    }
    var f := reader.ReadUint8();
    var digitalRecordingControlData := f / 0x40;
    var maximumBitRateFlag := f / 0x20 % 2 == 1;
    var componentControlFlag := f / 0x10 % 2 == 1;
    var copyControlType := f / 4 % 4;
    var apsControlData := CopyControlAps(f);
    if maximumBitRateFlag && !reader.CanRead(1) {
      return None;
    }
    var maximumBitRate: Option<nat> := None;
    if maximumBitRateFlag {
      var rate := reader.ReadUint8();
      maximumBitRate := Some(rate);
    }
    var componentControls: Option<seq<ComponentControl>> := None;
    if componentControlFlag {
      if !reader.CanRead(1) {
        return None;
      }
      var componentControlLength := reader.ReadUint8();
      if !reader.CanRead(componentControlLength) {
        return None;
      }
      var region := reader.Subarray(componentControlLength);
      var creader := new BinaryReader(region, 0);
      var controls := ReadComponentControls(creader);
      componentControls := Some(controls);
    }
    r := Some(DigitalCopyControlDescriptor(digitalRecordingControlData, copyControlType, apsControlData,
                                           maximumBitRate, componentControls));
  }

  method ReadComponentControls(reader: BinaryReader) returns (controls: seq<ComponentControl>)
    requires reader.offset >= 0
    modifies reader
    ensures controls == ComponentControlsFrom(reader.buffer, old(reader.offset))
  {
    ghost var b, o := reader.buffer, reader.offset;
    controls := [];
    while reader.CanRead(2)
      invariant reader.buffer == b && reader.offset >= 0
      invariant controls + ComponentControlsFrom(b, reader.offset) == ComponentControlsFrom(b, o)
      decreases |b| - reader.offset
    {
      ghost var start := reader.offset;
      var componentTag := reader.ReadUint8();
      var f := reader.ReadUint8();
      var maximumBitRateFlag := f / 0x20 % 2 == 1;
      if maximumBitRateFlag && !reader.CanRead(1) {
        assert ComponentControlsFrom(b, start) == [];
        assert controls + [] == controls;
        return;
      }
      var maximumBitRate: Option<nat> := None;
      if maximumBitRateFlag {
        var rate := reader.ReadUint8();
        maximumBitRate := Some(rate);
      }
      var control := ComponentControl(componentTag, f / 0x40, f / 4 % 4, CopyControlAps(f), maximumBitRate);
      assert ComponentControlsFrom(b, start) == [control] + ComponentControlsFrom(b, reader.offset);
      ListStep(controls, control, ComponentControlsFrom(b, reader.offset));
      controls := controls + [control];
    }
    assert controls + [] == controls;
  }

  /** The inner `for` loop of the TS information descriptor: n 16-bit service ids, each checked for. */
  function ServiceIdsAt(d: bytes, o: nat, n: nat): (r: Option<Field<seq<nat>>>)
    decreases n
  {
    if n == 0 then Some(Field([], o))
    else if |d| < 2 + o then None
    else Then([U16(d, o)], ServiceIdsAt(d, o + 2, n - 1))
  }

  /** The n ids are read iff 2n bytes are left, and then exactly those bytes are used. */
  lemma {:induction false} ServiceIdsAtSpec(d: bytes, o: nat, n: nat)
    requires o <= |d|
    ensures ServiceIdsAt(d, o, n).Some? <==> o + 2 * n <= |d|
    ensures ServiceIdsAt(d, o, n).Some? ==> ServiceIdsAt(d, o, n).value.next == o + 2 * n
                                             && |ServiceIdsAt(d, o, n).value.value| == n
    decreases n
  {
    if n > 0 && o + 2 <= |d| {
      ServiceIdsAtSpec(d, o + 2, n - 1);
    }
  }

  /** The outer `for` loop: n transmission types, each an info byte and a counted id list. */
  function TransmissionTypesAt(d: bytes, o: nat, n: nat): (r: Option<Field<seq<TransmissionType>>>)
    decreases n
  {
    if n == 0 then Some(Field([], o))
    else if |d| < 2 + o then None
    else
      match ServiceIdsAt(d, o + 2, d[o + 1])
      case None => None
      case Some(ids) => Then([TransmissionType(d[o], ids.value)], TransmissionTypesAt(d, ids.next, n - 1))
  }

  /**
   * `readTSInformationDescriptor`: a remote control key id, a name whose
   * length and the transmission type count share byte 1, then the types;
   * any count that does not fit makes the whole descriptor undefined.
   */
  function TSInformationOf(d: bytes): (r: Option<Descriptor>)
    ensures r.Some? ==> |d| >= 2 && r.value.TSInformationDescriptor? && |r.value.tsName| == d[1] / 4
                        && r.value.remoteControlKeyId == d[0]
  {
    if |d| < 2 then None
    else
      var nameLength := d[1] / 4;
      if |d| < nameLength + 2 then None
      else
        match TransmissionTypesAt(d, 2 + nameLength, d[1] % 4)
        case None => None
        case Some(types) => Some(TSInformationDescriptor(d[0], Js.Slice(d, 2, 2 + nameLength), types.value))
  }

  method ReadTSInformationDescriptor(buffer: bytes) returns (r: Option<Descriptor>)
    ensures r == TSInformationOf(buffer)
  {
    var reader := new BinaryReader(buffer, 0);
    if !reader.CanRead(2) {
      return None;
    }
    var remoteControlKeyId := reader.ReadUint8();
    var h := reader.ReadUint8();
    var lengthOfTSName := h / 4;
    var transmissionTypeCount := h % 4;
    if !reader.CanRead(lengthOfTSName) {
      return None;
    }
    var tsName := reader.Slice(lengthOfTSName);
    var types := ReadTransmissionTypes(reader, transmissionTypeCount);
    if types.None? {
      return None;
    }
    r := Some(TSInformationDescriptor(remoteControlKeyId, tsName, types.value));
  }

  method ReadTransmissionTypes(reader: BinaryReader, n: nat) returns (r: Option<seq<TransmissionType>>)
    requires reader.offset >= 0
    modifies reader
    ensures r.Some? ==> reader.offset >= 0
    ensures TransmissionTypesAt(reader.buffer, old(reader.offset), n)
            == if r.Some? then Some(Field(r.value, reader.offset)) else None
  {
    ghost var b, o := reader.buffer, reader.offset;
    var transmissionTypes: seq<TransmissionType> := [];
    ThenEmpty(TransmissionTypesAt(b, o, n));
    for j := 0 to n
      invariant reader.buffer == b && reader.offset >= 0
      invariant Then(transmissionTypes, TransmissionTypesAt(b, reader.offset, n - j)) == TransmissionTypesAt(b, o, n)
    {
      if !reader.CanRead(2) {
        return None;
      }
      ghost var start := reader.offset;
      var transmissionTypeInfo := reader.ReadUint8();
      var numOfService := reader.ReadUint8();
      var serviceIdList := ReadServiceIds(reader, numOfService);
      if serviceIdList.None? {
        return None;
      }
      var t := TransmissionType(transmissionTypeInfo, serviceIdList.value);
      assert TransmissionTypesAt(b, start, n - j) == Then([t], TransmissionTypesAt(b, reader.offset, n - j - 1));
      ThenAppend(transmissionTypes, t, TransmissionTypesAt(b, reader.offset, n - j - 1));
      transmissionTypes := transmissionTypes + [t];
    }
    ThenDone(transmissionTypes, reader.offset);
    r := Some(transmissionTypes);
  }

  method ReadServiceIds(reader: BinaryReader, n: nat) returns (r: Option<seq<nat>>)
    requires reader.offset >= 0
    modifies reader
    ensures r.Some? ==> reader.offset >= 0
    ensures ServiceIdsAt(reader.buffer, old(reader.offset), n) == if r.Some? then Some(Field(r.value, reader.offset)) else None
  {
    ghost var b, o := reader.buffer, reader.offset;
    var serviceIdList: seq<nat> := [];
    ThenEmpty(ServiceIdsAt(b, o, n));
    for k := 0 to n
      invariant reader.buffer == b && reader.offset >= 0
      invariant Then(serviceIdList, ServiceIdsAt(b, reader.offset, n - k)) == ServiceIdsAt(b, o, n)
    {
      if !reader.CanRead(2) {
        return None;
      }
      ghost var start := reader.offset;
      var serviceId := reader.ReadUint16();
      assert ServiceIdsAt(b, start, n - k) == Then([serviceId], ServiceIdsAt(b, reader.offset, n - k - 1));
      ThenAppend(serviceIdList, serviceId, ServiceIdsAt(b, reader.offset, n - k - 1));
      serviceIdList := serviceIdList + [serviceId];
    }
    ThenDone(serviceIdList, reader.offset);
    r := Some(serviceIdList);
  }

  /**
   * The table parameter loop of the SI parameter descriptor: a table id and
   * a length-prefixed description while two bytes are left.  The
   * description is not bound-checked: `slice` cuts it at the end of the body.
   */
  function TableParameters(d: bytes, o: nat): (r: seq<SITableParameter>)
    decreases |d| - o
  {
    if |d| < 1 + 1 + o then []
    else
      var x := TableParameterAt(d, o);
      [x.value] + TableParameters(d, x.next)
  }

  /** One table parameter at o, which has two bytes left; its description slice is clamped. */
  function TableParameterAt(d: bytes, o: nat): (r: Field<SITableParameter>)
    requires o + 2 <= |d|
    ensures r.next == o + 2 + d[o + 1] && r.value.tableId == d[o]
  {
    Field(SITableParameter(d[o], Js.Slice(d, o + 2, o + 2 + d[o + 1])), o + 2 + d[o + 1])
  }

  /** A description longer than what is left becomes the last parameter, holding the rest of the body. */
  lemma {:induction false} TableParameterCut(d: bytes, o: nat)
    requires o + 2 <= |d| < o + 2 + d[o + 1]
    ensures TableParameters(d, o) == [SITableParameter(d[o], d[o + 2..])]
  {
    assert TableParameters(d, o + 2 + d[o + 1]) == [];
    SliceClamped(d, o + 2, o + 2 + d[o + 1]);
  }

  /** `readSIParameterDescriptor`: a version byte, a 16-bit update time and the table parameters. */
  function SIParameterOf(d: bytes): (r: Option<Descriptor>)
    ensures r.Some? <==> |d| >= 3
  {
    if |d| < 1 + 2 then None else Some(SIParameterDescriptor(d[0], U16(d, 1), TableParameters(d, 3)))
  }

  method ReadSIParameterDescriptor(buffer: bytes) returns (r: Option<Descriptor>)
    ensures r == SIParameterOf(buffer)
  {
    var reader := new BinaryReader(buffer, 0);
    if !reader.CanRead(1 + 2) {
      return None;
    }
    var parameterVersion := reader.ReadUint8();
    var updateTime := reader.ReadUint16();
    var tableParameters := ReadTableParameters(reader);
    r := Some(SIParameterDescriptor(parameterVersion, updateTime, tableParameters));
  }

  method ReadTableParameters(reader: BinaryReader) returns (tableParameters: seq<SITableParameter>)
    requires reader.offset >= 0
    modifies reader
    ensures tableParameters == TableParameters(reader.buffer, old(reader.offset))
  {
    ghost var b, o := reader.buffer, reader.offset;
    tableParameters := [];
    while reader.CanRead(1 + 1)
      invariant reader.buffer == b && reader.offset >= 0
      invariant tableParameters + TableParameters(b, reader.offset) == TableParameters(b, o)
      decreases |b| - reader.offset
    {
      ghost var start := reader.offset;
      var parameter := ReadTableParameter(reader);
      assert TableParameters(b, start) == [parameter] + TableParameters(b, reader.offset);
      ListStep(tableParameters, parameter, TableParameters(b, reader.offset));
      tableParameters := tableParameters + [parameter];
    }
    assert tableParameters + [] == tableParameters;
  }

  method ReadTableParameter(reader: BinaryReader) returns (parameter: SITableParameter)
    requires reader.offset >= 0 && reader.CanRead(1 + 1)
    modifies reader
    ensures reader.offset >= 0
    ensures TableParameterAt(reader.buffer, old(reader.offset)) == Field(parameter, reader.offset)
  {
    var tableId := reader.ReadUint8();
    var tableDescriptionLength := reader.ReadUint8();
    var tableDescription := reader.Slice(tableDescriptionLength);
    parameter := SITableParameter(tableId, tableDescription);
  }

  method ReadExtendedBroadcasterDescriptor(buffer: bytes) returns (r: Decoded<Descriptor>)
    ensures r == ExtendedBroadcasterOf(buffer)
  {
    var reader := new BinaryReader(buffer, 0);
    if !reader.CanRead(1) {
      return Undefined;
    }
    var b0 := reader.ReadUint8();
    var broadcasterType := b0 / 0x10;
    if broadcasterType != 1 {
      return Ok(ExtendedBroadcasterDescriptor(broadcasterType, None));
    }
    if !reader.InView(2) {
      // `readUint16()` past the end: RangeError
      return Thrown;
    }
    var terrestrialBroadcasterId := reader.ReadUint16();
    if !reader.InView(1) {
      return Thrown;
    }
    var h := reader.ReadUint8();
    var numberOfAffiliationIdLoop := h / 0x10;
    var numberOfBroadcasterIdLoop := h % 0x10;
    if !reader.CanRead(numberOfAffiliationIdLoop) {
      return Undefined;
    }
    var affiliationIdList := ReadByteList(reader, numberOfAffiliationIdLoop);
    if !reader.CanRead(numberOfBroadcasterIdLoop * 3) {
      return Undefined;
    }
    var broadcasters := ReadBroadcasters(reader, numberOfBroadcasterIdLoop);
    // read, but not part of the returned record
    var privateData := reader.SliceRest();
    r := Ok(ExtendedBroadcasterDescriptor(broadcasterType, Some(TerrestrialBroadcaster(
      terrestrialBroadcasterId, affiliationIdList, broadcasters))));
  }

  method ReadBroadcasters(reader: BinaryReader, n: nat) returns (broadcasters: seq<BroadcasterEntry>)
    requires reader.offset >= 0 && reader.CanRead(3 * n)
    modifies reader
    ensures reader.offset == old(reader.offset) + 3 * n
    ensures broadcasters == Broadcasters(reader.buffer, old(reader.offset), n)
  {
    ghost var p := reader.offset;
    broadcasters := [];
    for i := 0 to n
      invariant reader.offset == p + 3 * i
      invariant broadcasters == Broadcasters(reader.buffer, p, i)
    {
      var originalNetworkId := reader.ReadUint16();
      var broadcasterId := reader.ReadUint8();
      broadcasters := broadcasters + [BroadcasterEntry(originalNetworkId, broadcasterId)];
    }
  }

  /**
   * `readCAContractInfoDescriptor`: a CA system id, a unit id and component
   * count, the counted component tags, then two length-prefixed fields.
   */
  function CAContractInfoOf(d: bytes): (r: Option<Descriptor>)
    ensures r.Some? ==> |d| >= 3 && r.value.CAContractInfoDescriptor? && |r.value.components| == d[2] % 0x10
                        && r.value.caUnitId == d[2] / 0x10
  {
    if |d| < 2 + 1 then None
    else
      var count := d[2] % 0x10;
      if |d| < count + 3 then None
      else
        match ShortTextAt(d, 3 + count)
        case None => None
        case Some(verification) =>
          match ShortTextAt(d, verification.next)
          case None => None
          case Some(feeName) =>
            Some(CAContractInfoDescriptor(U16(d, 0), d[2] / 0x10, d[3..3 + count], verification.value, feeName.value))
  }

  method ReadCAContractInfoDescriptor(buffer: bytes) returns (r: Option<Descriptor>)
    ensures r == CAContractInfoOf(buffer)
  {
    var reader := new BinaryReader(buffer, 0);
    if !reader.CanRead(2 + 1) {
      return None;
    }
    var caSystemId := reader.ReadUint16();
    var b := reader.ReadUint8();
    var caUnitId := b / 0x10;
    var numOfComponent := b % 0x10;
    if !reader.CanRead(numOfComponent) {
      return None;
    }
    var components := ReadByteList(reader, numOfComponent);
    var contractVerificationInfo := ReadShortText(reader);
    if contractVerificationInfo.None? {
      return None;
    }
    var feeName := ReadShortText(reader);
    if feeName.None? {
      return None;
    }
    r := Some(CAContractInfoDescriptor(caSystemId, caUnitId, components, contractVerificationInfo.value, feeName.value));
  }

  /** A `for` loop of `readUint8` calls, as for CA contract components and affiliation ids. */
  method ReadByteList(reader: BinaryReader, n: nat) returns (components: bytes)
    requires reader.offset >= 0 && reader.CanRead(n)
    modifies reader
    ensures reader.offset == old(reader.offset) + n
    ensures components == reader.buffer[old(reader.offset)..reader.offset]
  {
    ghost var o := reader.offset;
    components := [];
    for i := 0 to n
      invariant reader.offset == o + i
      invariant components == reader.buffer[o..o + i]
    {
      var component := reader.ReadUint8();
      components := components + [component as byte];
    }
  }


  /** The content descriptor's loop: two nibbles and a user byte per two bytes. */
  function ContentItems(b: bytes, o: nat): (r: seq<ContentItem>)
    decreases |b| - o
  {
    if |b| < 1 + 1 + o then [] else [ContentItem(b[o] / 0x10, b[o] % 0x10, b[o + 1])] + ContentItems(b, o + 2)
  }

  /** One item per whole two bytes. */
  lemma {:induction false} ContentItemsLength(b: bytes, o: nat)
    requires o <= |b|
    ensures |ContentItems(b, o)| == (|b| - o) / 2
    decreases |b| - o
  {
    if o + 2 <= |b| {
      ContentItemsLength(b, o + 2);
    }
  }

  method ReadContentDescriptor(buffer: bytes) returns (items: seq<ContentItem>)
    ensures items == ContentItems(buffer, 0)
  {
    var reader := new BinaryReader(buffer, 0);
    items := [];
    while reader.CanRead(1 + 1)
      invariant reader.buffer == buffer && reader.offset >= 0
      invariant items + ContentItems(buffer, reader.offset) == ContentItems(buffer, 0)
      decreases |buffer| - reader.offset
    {
      ghost var start := reader.offset;
      var b0 := reader.ReadUint8();
      var userNibble := reader.ReadUint8();
      var item := ContentItem(b0 / 0x10, b0 % 0x10, userNibble);
      assert ContentItems(buffer, start) == [item] + ContentItems(buffer, reader.offset);
      ListStep(items, item, ContentItems(buffer, reader.offset));
      items := items + [item];
    }
    assert items + [] == items;
  }

  /** The parental rating loop: a 24-bit country code and a rating per four bytes. */
  function Ratings(b: bytes, o: nat): (r: seq<ParentalRating>)
    decreases |b| - o
  {
    if |b| < 3 + 1 + o then [] else [ParentalRating(U24(b, o), b[o + 3])] + Ratings(b, o + 4)
  }

  /** One rating per whole four bytes; a trailing partial entry is ignored. */
  lemma {:induction false} RatingsLength(b: bytes, o: nat)
    requires o <= |b|
    ensures |Ratings(b, o)| == (|b| - o) / 4
    decreases |b| - o
  {
    if o + 4 <= |b| {
      RatingsLength(b, o + 4);
    }
  }

  method ReadParentalRatingDescriptor(buffer: bytes) returns (ratings: seq<ParentalRating>)
    ensures ratings == Ratings(buffer, 0)
  {
    var reader := new BinaryReader(buffer, 0);
    ratings := [];
    while reader.CanRead(3 + 1)
      invariant reader.buffer == buffer && reader.offset >= 0
      invariant ratings + Ratings(buffer, reader.offset) == Ratings(buffer, 0)
      decreases |buffer| - reader.offset
    {
      ghost var start := reader.offset;
      var countryCode := reader.ReadUint24();
      var rating := reader.ReadUint8();
      var entry := ParentalRating(countryCode, rating);
      assert Ratings(buffer, start) == [entry] + Ratings(buffer, reader.offset);
      ListStep(ratings, entry, Ratings(buffer, reader.offset));
      ratings := ratings + [entry];
    }
    assert ratings + [] == ratings;
  }

  /** The local time offset loop: thirteen bytes per entry. */
  function LocalTimeOffsets(b: bytes, o: nat): (r: seq<LocalTimeOffset>)
    decreases |b| - o
  {
    if |b| < 3 + 1 + 2 + 5 + 2 + o then []
    else
      var a := b[o + 3];
      [LocalTimeOffset(U24(b, o), a / 4, a % 2 == 1, U16(b, o + 4), U40(b, o + 6), U16(b, o + 11))]
      + LocalTimeOffsets(b, o + 13)
  }

  /** One offset per whole thirteen bytes. */
  lemma {:induction false} LocalTimeOffsetsLength(b: bytes, o: nat)
    requires o <= |b|
    ensures |LocalTimeOffsets(b, o)| == (|b| - o) / 13
    decreases |b| - o
  {
    if o + 13 <= |b| {
      LocalTimeOffsetsLength(b, o + 13);
    }
  }

  method ReadLocalTimeOffsetDescriptor(buffer: bytes) returns (offsets: seq<LocalTimeOffset>)
    ensures offsets == LocalTimeOffsets(buffer, 0)
  {
    var reader := new BinaryReader(buffer, 0);
    offsets := [];
    while reader.CanRead(3 + 1 + 2 + 5 + 2)
      invariant reader.buffer == buffer && reader.offset >= 0
      invariant offsets + LocalTimeOffsets(buffer, reader.offset) == LocalTimeOffsets(buffer, 0)
      decreases |buffer| - reader.offset
    {
      ghost var start := reader.offset;
      var countryCode := reader.ReadUint24();
      var a := reader.ReadUint8();
      var localTimeOffset := reader.ReadUint16();
      var timeOfChange := reader.ReadUint40();
      var nextTimeOffset := reader.ReadUint16();
      var entry := LocalTimeOffset(countryCode, a / 4, a % 2 == 1, localTimeOffset, timeOfChange, nextTimeOffset);
      assert LocalTimeOffsets(buffer, start) == [entry] + LocalTimeOffsets(buffer, reader.offset);
      ListStep(offsets, entry, LocalTimeOffsets(buffer, reader.offset));
      offsets := offsets + [entry];
    }
    assert offsets + [] == offsets;
  }

  /** The event group's `for` loop: n (service, event) pairs at o. */
  function GroupEvents(b: bytes, o: nat, n: nat): (r: seq<EventGroupEvent>)
    requires o + 4 * n <= |b|
    ensures |r| == n
  {
    if n == 0 then [] else GroupEvents(b, o, n - 1) + [EventGroupEvent(U16(b, o + 4 * (n - 1)), U16(b, o + 4 * (n - 1) + 2))]
  }

  /** The other-network loop: eight bytes per entry while eight are left. */
  function OtherNetworkEvents(b: bytes, o: nat): (r: seq<OtherNetworkEvent>)
    decreases |b| - o
  {
    if |b| < 8 + o then []
    else [OtherNetworkEvent(U16(b, o), U16(b, o + 2), U16(b, o + 4), U16(b, o + 6))] + OtherNetworkEvents(b, o + 8)
  }

  /**
   * `readEventGroupDescriptor`: a group type and a count in byte 0, the
   * counted events, then other-network events for group types 4 and 5 or
   * the rest as private data otherwise.
   */
  function EventGroupOf(d: bytes): (r: Option<Descriptor>)
  {
    if |d| < 1 then None
    else
      var groupType := d[0] / 0x10;
      var eventCount := d[0] % 0x10;
      if |d| < (2 + 2) * eventCount + 1 then None
      else
        var events := GroupEvents(d, 1, eventCount);
        var p := 1 + 4 * eventCount;
        if groupType == EVENT_GROUP_TYPE_RELAY_TO_OTHER_NETWORK || groupType == EVENT_GROUP_TYPE_MOVEMENT_FROM_OTHER_NETWORK
        then Some(EventGroupDescriptor(groupType, events, Some(OtherNetworkEvents(d, p)), None))
        else Some(EventGroupDescriptor(groupType, events, None, Some(Js.Slice(d, p, |d|))))
  }

  /**
   * The group decodes iff its counted events fit; it then holds exactly that
   * many, and other-network events exactly for group types 4 and 5.
   */
  lemma {:induction false} EventGroupSpec(d: bytes)
    ensures EventGroupOf(d).Some? <==> |d| >= 1 && |d| >= 1 + 4 * (d[0] % 0x10)
    ensures EventGroupOf(d).Some? ==>
              var g := EventGroupOf(d).value;
              |g.events| == d[0] % 0x10 && g.groupType == d[0] / 0x10
              && (g.otherNetworkEvents.Some? <==> g.groupType in {4, 5})
              && (g.groupPrivateData.Some? <==> g.groupType !in {4, 5})
  {
  }

  method ReadEventGroupDescriptor(buffer: bytes) returns (r: Option<Descriptor>)
    ensures r == EventGroupOf(buffer)
  {
    var reader := new BinaryReader(buffer, 0);
    if !reader.CanRead(1) {
      return None;
    }
    var b0 := reader.ReadUint8();
    var groupType := b0 / 0x10;
    var eventCount := b0 % 0x10;
    if !reader.CanRead((2 + 2) * eventCount) {
      return None;
    }
    var events: seq<EventGroupEvent> := [];
    for i := 0 to eventCount
      invariant reader.buffer == buffer && reader.offset == 1 + 4 * i
      invariant events == GroupEvents(buffer, 1, i)
    {
      var serviceId := reader.ReadUint16();
      var eventId := reader.ReadUint16();
      events := events + [EventGroupEvent(serviceId, eventId)];
    }
    if groupType == EVENT_GROUP_TYPE_RELAY_TO_OTHER_NETWORK || groupType == EVENT_GROUP_TYPE_MOVEMENT_FROM_OTHER_NETWORK {
      var otherNetworkEvents := ReadOtherNetworkEvents(reader);
      r := Some(EventGroupDescriptor(groupType, events, Some(otherNetworkEvents), None));
    } else {
      var privateData := reader.SliceRest();
      r := Some(EventGroupDescriptor(groupType, events, None, Some(privateData)));
    }
  }

  method ReadOtherNetworkEvents(reader: BinaryReader) returns (events: seq<OtherNetworkEvent>)
    requires reader.offset >= 0
    modifies reader
    ensures events == OtherNetworkEvents(reader.buffer, old(reader.offset))
  {
    ghost var b, o := reader.buffer, reader.offset;
    events := [];
    while reader.CanRead(8)
      invariant reader.buffer == b && reader.offset >= 0
      invariant events + OtherNetworkEvents(b, reader.offset) == OtherNetworkEvents(b, o)
      decreases |b| - reader.offset
    {
      ghost var start := reader.offset;
      var originalNetworkId := reader.ReadUint16();
      var transportStreamId := reader.ReadUint16();
      var serviceId := reader.ReadUint16();
      var eventId := reader.ReadUint16();
      var event := OtherNetworkEvent(originalNetworkId, transportStreamId, serviceId, eventId);
      assert OtherNetworkEvents(b, start) == [event] + OtherNetworkEvents(b, reader.offset);
      ListStep(events, event, OtherNetworkEvents(b, reader.offset));
      events := events + [event];
    }
    assert events + [] == events;
  }

  /** A text behind a one-byte length. */
  function ShortTextAt(d: bytes, q: nat): (r: Option<Field<bytes>>)
    ensures r.Some? ==> q < r.value.next <= |d| && r.value.next == q + 1 + d[q] && r.value.value == d[q + 1..r.value.next]
  {
    if |d| < 1 + q then None
    else if |d| < d[q] + (q + 1) then None
    else Some(Field(Js.Slice(d, q + 1, q + 1 + d[q]), q + 1 + d[q]))
  }

  /**
   * The item loop of the extended event descriptor, on its own sub-cursor
   * over the item region: two length-prefixed fields per item; an item
   * that does not fit ends the loop.
   */
  function EventItems(r: bytes, q: nat): (items: seq<ExtendedEventItem>)
    decreases |r| - q
  {
    match ShortTextAt(r, q)
    case None => []
    case Some(description) =>
      match ShortTextAt(r, description.next)
      case None => []
      case Some(item) => [ExtendedEventItem(description.value, item.value)] + EventItems(r, item.next)
  }

  /** Each item takes two length bytes at least. */
  lemma {:induction false} EventItemsBound(r: bytes, q: nat)
    requires q <= |r|
    ensures |EventItems(r, q)| <= (|r| - q) / 2
    decreases |r| - q
  {
    var description := ShortTextAt(r, q);
    if description.Some? {
      var item := ShortTextAt(r, description.value.next);
      if item.Some? {
        EventItemsBound(r, item.value.next);
      }
    }
  }

  /**
   * `readExtendedEventDescriptor`: descriptor numbers, a language code, the
   * length-prefixed item region and a length-prefixed text.
   */
  function ExtendedEventOf(d: bytes): (r: Option<Descriptor>)
    ensures r.Some? ==> |d| >= 5 && 5 + d[4] <= |d| && r.value.ExtendedEventDescriptor?
                        && r.value.eventItems == EventItems(d[5..5 + d[4]], 0)
  {
    if |d| < 1 + 3 + 1 then None
    else
      match ShortTextAt(d, 4)
      case None => None
      case Some(region) =>
        match ShortTextAt(d, region.next)
        case None => None
        case Some(text) =>
          Some(ExtendedEventDescriptor(d[0] / 0x10, d[0] % 0x10, U24(d, 1), EventItems(region.value, 0), text.value))
  }

  method ReadExtendedEventDescriptor(buffer: bytes) returns (r: Option<Descriptor>)
    ensures r == ExtendedEventOf(buffer)
  {
    var reader := new BinaryReader(buffer, 0);
    if !reader.CanRead(1 + 3 + 1) {
      return None;
    }
    var b0 := reader.ReadUint8();
    var descriptorNumber := b0 / 0x10;
    var lastDescriptorNumber := b0 % 0x10;
    var iso639LanguageCode := reader.ReadUint24();
    var region := ReadShortText(reader);
    if region.None? {
      return None;
    }
    var ireader := new BinaryReader(region.value, 0);
    var items := ReadEventItems(ireader);
    var text := ReadShortText(reader);
    if text.None? {
      return None;
    }
    r := Some(ExtendedEventDescriptor(descriptorNumber, lastDescriptorNumber, iso639LanguageCode, items, text.value));
  }

  method ReadEventItems(reader: BinaryReader) returns (items: seq<ExtendedEventItem>)
    requires reader.offset >= 0
    modifies reader
    ensures items == EventItems(reader.buffer, old(reader.offset))
  {
    ghost var b, o := reader.buffer, reader.offset;
    items := [];
    while reader.CanRead(1)
      invariant reader.buffer == b && reader.offset >= 0
      invariant items + EventItems(b, reader.offset) == EventItems(b, o)
      decreases |b| - reader.offset
    {
      ghost var start := reader.offset;
      var itemDescription := ReadShortText(reader);
      if itemDescription.None? {
        break;
      }
      var item := ReadShortText(reader);
      if item.None? {
        break;
      }
      var entry := ExtendedEventItem(itemDescription.value, item.value);
      assert EventItems(b, start) == [entry] + EventItems(b, reader.offset);
      ListStep(items, entry, EventItems(b, reader.offset));
      items := items + [entry];
    }
    assert items + [] == items;
  }

  /** One CA unit at o: an id and a tag count sharing a byte, then that many component tags. */
  function CAUnitAt(d: bytes, o: nat): (r: Option<Field<CAUnit>>)
    ensures r.Some? ==> o < r.value.next
  {
    if |d| < 1 + o then None
    else
      var count := d[o] % 0x10;
      if |d| < count + (o + 1) then None
      else Some(Field(CAUnit(d[o] / 0x10, Js.Slice(d, o + 1, o + 1 + count)), o + 1 + count))
  }

  /** The total bit rate byte of a group, present only when the descriptor flags it. */
  function GroupRateAt(d: bytes, p: nat, rateFlag: bool): (r: Option<Field<Option<nat>>>)
    ensures r.Some? ==> p <= r.value.next
  {
    if !rateFlag then Some(Field(None, p))
    else if |d| < 1 + p then None
    else Some(Field(Some(d[p] as nat), p + 1))
  }

  /** One component group at o: its counted CA units, a total bit rate when the descriptor flags one, and a text. */
  function GroupAt(d: bytes, o: nat, rateFlag: bool): (r: Option<Field<ComponentGroup>>)
    ensures r.Some? ==> o < r.value.next
  {
    if |d| < 1 + o then None
    else
      match Counted(CAUnitAt, d, o + 1, d[o] % 0x10)
      case None => None
      case Some(units) =>
        CountedAdvances(CAUnitAt, d, o + 1, d[o] % 0x10);
        match GroupRateAt(d, units.next, rateFlag)
        case None => None
        case Some(rate) =>
          match ShortTextAt(d, rate.next)
          case None => None
          case Some(text) => Some(Field(ComponentGroup(d[o] / 0x10, units.value, rate.value, text.value), text.next))
  }

  /** The group reader of a descriptor whose total-bit-rate flag is rateFlag. */
  function GroupReader(rateFlag: bool): (bytes, nat) -> Option<Field<ComponentGroup>>
  {
    (d: bytes, o: nat) => GroupAt(d, o, rateFlag)
  }

  /**
   * `readComponentGroupDescriptor`: a group type, a total-bit-rate flag and
   * a group count share byte 0; a group, unit or text that does not fit
   * makes the whole descriptor undefined.
   */
  function ComponentGroupOf(d: bytes): (r: Option<Descriptor>)
    ensures r.Some? ==> |d| >= 1 && Counted(GroupReader(d[0] / 0x10 % 2 == 1), d, 1, d[0] % 0x10).Some?
                        && r.value.ComponentGroupDescriptor? && r.value.componentGroupType == d[0] / 0x20
  {
    if |d| < 1 then None
    else
      match Counted(GroupReader(d[0] / 0x10 % 2 == 1), d, 1, d[0] % 0x10)
      case None => None
      case Some(groups) => Some(ComponentGroupDescriptor(d[0] / 0x20, groups.value))
  }

  /** Where the groups of a decodable component group descriptor end. */
  function ComponentGroupEnd(d: bytes): nat
    requires ComponentGroupOf(d).Some?
  {
    Counted(GroupReader(d[0] / 0x10 % 2 == 1), d, 1, d[0] % 0x10).value.next
  }

  lemma {:induction false} CAUnitPrefix(d: bytes, o: nat, k: nat)
    requires o <= k <= |d| && CAUnitAt(d, o).Some?
    ensures k < CAUnitAt(d, o).value.next ==> CAUnitAt(d[..k], o).None?
    ensures CAUnitAt(d, o).value.next <= k ==> CAUnitAt(d[..k], o) == CAUnitAt(d, o)
  {
    if o + 1 <= k {
      assert d[..k][o] == d[o];
      if o + 1 + d[o] % 0x10 <= k {
        SliceOfPrefix(d, k, o + 1, o + 1 + d[o] % 0x10);
      }
    }
  }

  lemma {:induction false} GroupRatePrefix(d: bytes, p: nat, rateFlag: bool, k: nat)
    requires p <= k <= |d| && GroupRateAt(d, p, rateFlag).Some?
    ensures k < GroupRateAt(d, p, rateFlag).value.next ==> GroupRateAt(d[..k], p, rateFlag).None?
    ensures GroupRateAt(d, p, rateFlag).value.next <= k ==> GroupRateAt(d[..k], p, rateFlag) == GroupRateAt(d, p, rateFlag)
  {
    if rateFlag && p + 1 <= k {
      assert d[..k][p] == d[p];
    }
  }

  lemma {:induction false} ShortTextPrefix(d: bytes, q: nat, k: nat)
    requires q <= k <= |d| && ShortTextAt(d, q).Some?
    ensures k < ShortTextAt(d, q).value.next ==> ShortTextAt(d[..k], q).None?
    ensures ShortTextAt(d, q).value.next <= k ==> ShortTextAt(d[..k], q) == ShortTextAt(d, q)
  {
    if q + 1 <= k {
      assert d[..k][q] == d[q];
      if q + 1 + d[q] <= k {
        SliceOfPrefix(d, k, q + 1, q + 1 + d[q]);
      }
    }
  }

  lemma {:induction false} CAUnitsStable(d: bytes, k: nat)
    requires k <= |d|
    ensures Advances(CAUnitAt, d) && PrefixStable(CAUnitAt, d, k)
  {
    forall o: nat | o <= k && CAUnitAt(d, o).Some?
      ensures if CAUnitAt(d, o).value.next <= k then CAUnitAt(d[..k], o) == CAUnitAt(d, o) else CAUnitAt(d[..k], o).None?
    {
      CAUnitPrefix(d, o, k);
    }
  }

  lemma {:induction false} CAUnitsKept(d: bytes, o: nat, n: nat, k: nat)
    requires o <= k <= |d| && Counted(CAUnitAt, d, o, n).Some? && Counted(CAUnitAt, d, o, n).value.next <= k
    ensures Counted(CAUnitAt, d[..k], o, n) == Counted(CAUnitAt, d, o, n)
  {
    CAUnitsStable(d, k);
    CountedKept(CAUnitAt, d, o, n, k);
  }

  lemma {:induction false} CAUnitsLost(d: bytes, o: nat, n: nat, k: nat)
    requires o <= k <= |d| && Counted(CAUnitAt, d, o, n).Some? && k < Counted(CAUnitAt, d, o, n).value.next
    ensures Counted(CAUnitAt, d[..k], o, n).None?
  {
    CAUnitsStable(d, k);
    CountedLost(CAUnitAt, d, o, n, k);
  }

  /** Cut after its end a group is read unchanged. */
  lemma {:induction false} GroupKept(d: bytes, o: nat, rateFlag: bool, k: nat)
    requires o <= k <= |d| && GroupAt(d, o, rateFlag).Some? && GroupAt(d, o, rateFlag).value.next <= k
    ensures GroupAt(d[..k], o, rateFlag) == GroupAt(d, o, rateFlag)
  {
    assert d[..k][o] == d[o];
    var units := Counted(CAUnitAt, d, o + 1, d[o] % 0x10).value;
    CAUnitsKept(d, o + 1, d[o] % 0x10, k);
    GroupRatePrefix(d, units.next, rateFlag, k);
    ShortTextPrefix(d, GroupRateAt(d, units.next, rateFlag).value.next, k);
  }

  /** Cut before its end a group is lost. */
  lemma {:induction false} GroupLost(d: bytes, o: nat, rateFlag: bool, k: nat)
    requires o <= k <= |d| && GroupAt(d, o, rateFlag).Some? && k < GroupAt(d, o, rateFlag).value.next
    ensures GroupAt(d[..k], o, rateFlag).None?
  {
    if o + 1 <= k {
      assert d[..k][o] == d[o];
      var units := Counted(CAUnitAt, d, o + 1, d[o] % 0x10).value;
      if units.next <= k {
        CAUnitsKept(d, o + 1, d[o] % 0x10, k);
        GroupRatePrefix(d, units.next, rateFlag, k);
        var rate := GroupRateAt(d, units.next, rateFlag).value;
        if rate.next <= k {
          ShortTextPrefix(d, rate.next, k);
        }
      } else {
        CAUnitsLost(d, o + 1, d[o] % 0x10, k);
      }
    }
  }

  lemma {:induction false} GroupsStable(d: bytes, rateFlag: bool, k: nat)
    requires k <= |d|
    ensures Advances(GroupReader(rateFlag), d) && PrefixStable(GroupReader(rateFlag), d, k)
  {
    var item := GroupReader(rateFlag);
    forall o: nat | o <= k && item(d, o).Some?
      ensures if item(d, o).value.next <= k then item(d[..k], o) == item(d, o) else item(d[..k], o).None?
    {
      if GroupAt(d, o, rateFlag).value.next <= k {
        GroupKept(d, o, rateFlag, k);
      } else {
        GroupLost(d, o, rateFlag, k);
      }
    }
  }

  /**
   * Any truncation of a component group descriptor before the end of its
   * groups makes it undefined, and a truncation after that end changes
   * nothing.
   */
  lemma {:induction false} ComponentGroupTruncated(d: bytes, k: nat)
    requires ComponentGroupOf(d).Some? && k <= |d|
    ensures k < ComponentGroupEnd(d) ==> ComponentGroupOf(d[..k]).None?
    ensures ComponentGroupEnd(d) <= k ==> ComponentGroupOf(d[..k]) == ComponentGroupOf(d)
  {
    var item := GroupReader(d[0] / 0x10 % 2 == 1);
    GroupsStable(d, d[0] / 0x10 % 2 == 1, k);
    CountedAdvances(item, d, 1, d[0] % 0x10);
    if k >= 1 {
      var e := d[..k];
      assert e[0] == d[0];
      if k < ComponentGroupEnd(d) {
        CountedLost(item, d, 1, d[0] % 0x10, k);
      } else {
        CountedKept(item, d, 1, d[0] % 0x10, k);
        assert Counted(item, e, 1, e[0] % 0x10) == Counted(item, d, 1, d[0] % 0x10);
      }
    }
  }

  method ReadComponentGroupDescriptor(buffer: bytes) returns (r: Option<Descriptor>)
    ensures r == ComponentGroupOf(buffer)
  {
    var reader := new BinaryReader(buffer, 0);
    if !reader.CanRead(1) {
      return None;
    }
    var h := reader.ReadUint8();
    var componentGroupType := h / 0x20;
    var totalBitRateFlag := h / 0x10 % 2 == 1;
    var numOfGroup := h % 0x10;
    var groups := ReadComponentGroups(reader, numOfGroup, totalBitRateFlag);
    if groups.None? {
      return None;
    }
    r := Some(ComponentGroupDescriptor(componentGroupType, groups.value));
  }

  /** The group loop of `readComponentGroupDescriptor`. */
  method ReadComponentGroups(reader: BinaryReader, n: nat, totalBitRateFlag: bool) returns (r: Option<seq<ComponentGroup>>)
    requires 0 <= reader.offset
    modifies reader
    ensures r.Some? ==> 0 <= reader.offset
    ensures Counted(GroupReader(totalBitRateFlag), reader.buffer, old(reader.offset), n)
            == if r.Some? then Some(Field(r.value, reader.offset)) else None
  {
    ghost var b, o, item := reader.buffer, reader.offset, GroupReader(totalBitRateFlag);
    var groups: seq<ComponentGroup> := [];
    ThenEmpty(Counted(item, b, o, n));
    for i := 0 to n
      invariant reader.buffer == b && 0 <= reader.offset
      invariant Then(groups, Counted(item, b, reader.offset, n - i)) == Counted(item, b, o, n)
    {
      ghost var start := reader.offset;
      var group := ReadComponentGroup(reader, totalBitRateFlag);
      assert item(b, start) == GroupAt(b, start, totalBitRateFlag);
      if group.None? {
        return None;
      }
      assert Counted(item, b, start, n - i) == Then([group.value], Counted(item, b, reader.offset, n - i - 1));
      ThenAppend(groups, group.value, Counted(item, b, reader.offset, n - i - 1));
      groups := groups + [group.value];
    }
    ThenDone(groups, reader.offset);
    r := Some(groups);
  }

  method ReadComponentGroup(reader: BinaryReader, totalBitRateFlag: bool) returns (r: Option<ComponentGroup>)
    requires 0 <= reader.offset
    modifies reader
    ensures r.Some? ==> 0 <= reader.offset
    ensures GroupAt(reader.buffer, old(reader.offset), totalBitRateFlag)
            == if r.Some? then Some(Field(r.value, reader.offset)) else None
  {
    if !reader.CanRead(1) {
      return None;
    }
    var h := reader.ReadUint8();
    var componentGroupId := h / 0x10;
    var numOfCAUnit := h % 0x10;
    var caUnits := ReadCAUnits(reader, numOfCAUnit);
    if caUnits.None? {
      return None;
    }
    var totalBitRate := ReadGroupRate(reader, totalBitRateFlag);
    if totalBitRate.None? {
      return None;
    }
    var text := ReadShortText(reader);
    if text.None? {
      return None;
    }
    r := Some(ComponentGroup(componentGroupId, caUnits.value, totalBitRate.value, text.value));
  }

  method ReadGroupRate(reader: BinaryReader, totalBitRateFlag: bool) returns (r: Option<Option<nat>>)
    requires 0 <= reader.offset
    modifies reader
    ensures r.Some? ==> 0 <= reader.offset
    ensures GroupRateAt(reader.buffer, old(reader.offset), totalBitRateFlag)
            == if r.Some? then Some(Field(r.value, reader.offset)) else None
  {
    if !totalBitRateFlag {
      return Some(None);
    }
    if !reader.CanRead(1) {
      return None;
    }
    var totalBitRate := reader.ReadUint8();
    r := Some(Some(totalBitRate));
  }

  method ReadShortText(reader: BinaryReader) returns (r: Option<bytes>)
    requires 0 <= reader.offset
    modifies reader
    ensures r.Some? ==> 0 <= reader.offset
    ensures ShortTextAt(reader.buffer, old(reader.offset)) == if r.Some? then Some(Field(r.value, reader.offset)) else None
  {
    if !reader.CanRead(1) {
      return None;
    }
    var textLength := reader.ReadUint8();
    if !reader.CanRead(textLength) {
      return None;
    }
    var text := reader.Slice(textLength);
    r := Some(text);
  }
  method ReadCAUnits(reader: BinaryReader, n: nat) returns (r: Option<seq<CAUnit>>)
    requires 0 <= reader.offset
    modifies reader
    ensures r.Some? ==> 0 <= reader.offset
    ensures Counted(CAUnitAt, reader.buffer, old(reader.offset), n) == if r.Some? then Some(Field(r.value, reader.offset)) else None
  {
    ghost var b, o := reader.buffer, reader.offset;
    var caUnits: seq<CAUnit> := [];
    ThenEmpty(Counted(CAUnitAt, b, o, n));
    for i := 0 to n
      invariant reader.buffer == b && 0 <= reader.offset
      invariant Then(caUnits, Counted(CAUnitAt, b, reader.offset, n - i)) == Counted(CAUnitAt, b, o, n)
    {
      ghost var start := reader.offset;
      var unit := ReadCAUnit(reader);
      if unit.None? {
        return None;
      }
      assert Counted(CAUnitAt, b, start, n - i) == Then([unit.value], Counted(CAUnitAt, b, reader.offset, n - i - 1));
      ThenAppend(caUnits, unit.value, Counted(CAUnitAt, b, reader.offset, n - i - 1));
      caUnits := caUnits + [unit.value];
    }
    ThenDone(caUnits, reader.offset);
    r := Some(caUnits);
  }

  method ReadCAUnit(reader: BinaryReader) returns (r: Option<CAUnit>)
    requires 0 <= reader.offset
    modifies reader
    ensures r.Some? ==> 0 <= reader.offset
    ensures CAUnitAt(reader.buffer, old(reader.offset)) == if r.Some? then Some(Field(r.value, reader.offset)) else None
  {
    if !reader.CanRead(1) {
      return None;
    }
    var h := reader.ReadUint8();
    var caUnitId := h / 0x10;
    var numOfComponent := h % 0x10;
    if !reader.CanRead(numOfComponent) {
      return None;
    }
    var componentTags := reader.Subarray(numOfComponent);
    r := Some(CAUnit(caUnitId, componentTags));
  }
}
