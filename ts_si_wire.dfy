// The wire forms of the entries the table readers of src/ts/si.ts loop
// over, and the round trips of those loops and of the tables that hold
// them: an entry written with its fixed fields and its descriptor bytes is
// read back as that entry, a run of entries as the list of them, and a
// table laid out field by field as that table.  Reserved bits are written
// as zeros; the readers mask them off.
module TsSiWire {
  import opened Js
  import opened Decoding
  import opened Layouts
  import opened Sections
  import opened TsDescriptors
  import opened TsSiDescriptor
  import opened TsSi

  /** Descriptor bytes a 12-bit length can count, which the descriptor loop reads as ds. */
  predicate DescriptorWire(ds: seq<Descriptor>, raw: bytes)
  {
    |raw| < 0x1000 && DescriptorsFrom(raw, 0) == Ok(ds)
  }

  /** Found descriptor bytes are what a reader of that length cuts out. */
  lemma {:induction false} DescriptorsFound(b: bytes, p: nat, ds: seq<Descriptor>, raw: bytes)
    requires DescriptorWire(ds, raw) && At(b, p, raw)
    ensures DescriptorsIn(b, p, |raw|) == Ok(ds)
  {
    AtSlice(b, p, raw);
  }

  // ---------------------------------------------------------------------
  // PMT

  /** A stream whose type, PID and ES info fit their fields. */
  predicate PMTStreamWire(w: (PMTStream, bytes))
  {
    w.0.streamType < 0x100 && w.0.elementaryPID < 0x2000 && DescriptorWire(w.0.esInfo, w.1)
  }

  /** One stream on the wire: its type, PID and ES info length, then the ES info bytes. */
  ghost function EncodePMTStream(w: (PMTStream, bytes)): (r: bytes)
    ensures |r| == 5 + |w.1|
  {
    [(w.0.streamType % 0x100) as byte] + Word(w.0.elementaryPID) + Word(|w.1|) + w.1
  }

  /** The fields of an encoded stream found at p. */
  lemma {:induction false} PMTStreamFound(b: bytes, p: nat, s: PMTStream, raw: bytes)
    requires s.streamType < 0x100 && s.elementaryPID < 0x2000 && |raw| < 0x1000
    requires At(b, p, EncodePMTStream((s, raw)))
    ensures p + 5 + |raw| <= |b| && b[p] == s.streamType
    ensures U16(b, p + 1) == s.elementaryPID && U16(b, p + 3) == |raw| && b[p + 5..p + 5 + |raw|] == raw
  {
    var e := EncodePMTStream((s, raw));
    assert b[p] == e[0] && b[p + 1] == e[1] && b[p + 2] == e[2] && b[p + 3] == e[3] && b[p + 4] == e[4];
    WordAt(b, p + 1, s.elementaryPID);
    WordAt(b, p + 3, |raw|);
    assert e == e[..5] + raw;
    AtSplit(b, p, e[..5], raw);
    AtSlice(b, p + 5, raw);
  }

  /** An encoded stream found at p is read. */
  lemma {:induction false} PMTStreamReadBack(b: bytes, p: nat, w: (PMTStream, bytes))
    requires PMTStreamWire(w) && At(b, p, EncodePMTStream(w))
    ensures PMTStreamAt(b, p) == Read(w.0, p + 5 + |w.1|)
  {
    var s, raw := w.0, w.1;
    PMTStreamFound(b, p, s, raw);
    var h := PMTStreamHeadAt(b, p);
    assert h.entry == s.(esInfo := []) && h.length == |raw|;
    assert DescriptorsIn(b, p + 5, |raw|) == Ok(s.esInfo);
  }

  /** Every encoded stream of ws is read wherever it is found. */
  lemma {:induction false} PMTStreamsRead(b: bytes, ws: seq<(PMTStream, bytes)>)
    requires forall w :: w in ws ==> PMTStreamWire(w)
    ensures Reads(b, PMTStreamAt, EncodePMTStream, First, ws)
  {
    forall w, p: nat | w in ws && At(b, p, EncodePMTStream(w))
      ensures PMTStreamAt(b, p) == Read(First(w), p + |EncodePMTStream(w)|)
    {
      PMTStreamReadBack(b, p, w);
    }
  }

  /** A stream read at p is kept, and the loop goes on after it. */
  lemma {:induction false} PMTStreamWindow(b: bytes, p: nat, x: PMTStream, next: nat)
    requires PMTStreamAt(b, p) == Read(x, next)
    ensures PMTStreamsFrom(b, p) == Chain([x], PMTStreamsFrom(b, next))
  {
  }

  /** The stream loop ends, with nothing more, where fewer bytes than a stream head are left. */
  lemma {:induction false} PMTStreamsEnd(b: bytes, o: nat)
    requires |b| < o + 5
    ensures PMTStreamsFrom(b, o) == Ok([])
  {
  }

  /** Wherever the stream step reads an entry, the loop keeps it and goes on after it. */
  lemma {:induction false} PMTStreamsUnfold(b: bytes)
    ensures Unfolds(b, PMTStreamsFrom, PMTStreamAt)
  {
    forall p: nat, x, next: nat | PMTStreamAt(b, p) == Read(x, next)
      ensures PMTStreamsFrom(b, p) == Chain([x], PMTStreamsFrom(b, next))
    {
      PMTStreamWindow(b, p, x, next);
    }
  }

  /** The loop over a run of streams its step reads. */
  lemma {:induction false} PMTStreamsWalk(b: bytes, o: nat, ws: seq<(PMTStream, bytes)>)
    requires Reads(b, PMTStreamAt, EncodePMTStream, First, ws) && At(b, o, Laid(EncodePMTStream, ws))
    ensures PMTStreamsFrom(b, o) == Chain(Values(First, ws), PMTStreamsFrom(b, o + |Laid(EncodePMTStream, ws)|))
  {
    PMTStreamsUnfold(b);
    LaidWalk(b, PMTStreamsFrom, PMTStreamAt, EncodePMTStream, First, ws, o);
  }

  /** Wherever fewer bytes than an entry head are left, the loop ends. */
  lemma {:induction false} PMTStreamsEnds(b: bytes)
    ensures Ends(b, PMTStreamsFrom, 5)
  {
    forall p: nat | |b| < p + 5
      ensures PMTStreamsFrom(b, p) == Ok([])
    {
      PMTStreamsEnd(b, p);
    }
  }

  /** The loop over a run its step reads, followed by too few bytes for another entry. */
  lemma {:induction false} PMTStreamsWalkOut(b: bytes, o: nat, ws: seq<(PMTStream, bytes)>)
    requires Reads(b, PMTStreamAt, EncodePMTStream, First, ws) && At(b, o, Laid(EncodePMTStream, ws))
    requires |b| < o + |Laid(EncodePMTStream, ws)| + 5
    ensures PMTStreamsFrom(b, o) == Ok(Values(First, ws))
  {
    PMTStreamsUnfold(b);
    PMTStreamsEnds(b);
    LaidWhole(b, PMTStreamsFrom, PMTStreamAt, EncodePMTStream, First, ws, o, 5);
  }

  /** The stream loop reads a run of encoded streams, then goes on after them. */
  lemma {:induction false} PMTStreamsRoundTrip(b: bytes, o: nat, ws: seq<(PMTStream, bytes)>)
    requires forall w :: w in ws ==> PMTStreamWire(w)
    requires At(b, o, Laid(EncodePMTStream, ws))
    ensures PMTStreamsFrom(b, o) == Chain(Values(First, ws), PMTStreamsFrom(b, o + |Laid(EncodePMTStream, ws)|))
  {
    PMTStreamsRead(b, ws);
    PMTStreamsWalk(b, o, ws);
  }

  /** A run of encoded streams followed by fewer than 5 bytes is read as exactly those streams. */
  lemma {:induction false} PMTStreamsLaidOut(b: bytes, o: nat, ws: seq<(PMTStream, bytes)>)
    requires forall w :: w in ws ==> PMTStreamWire(w)
    requires At(b, o, Laid(EncodePMTStream, ws)) && |b| < o + |Laid(EncodePMTStream, ws)| + 5
    ensures PMTStreamsFrom(b, o) == Ok(Values(First, ws))
  {
    PMTStreamsRead(b, ws);
    PMTStreamsWalkOut(b, o, ws);
  }

  /** A PMT's 9 fixed bytes: program number, header, PCR PID and program info length. */
  function PMTHead(programNumber: nat, h: SectionHeader, pcrPID: nat, infoLength: nat): (r: bytes)
    ensures |r| == 9
  {
    Word(programNumber) + EncodeSectionHeader(h) + Word(pcrPID) + Word(infoLength)
  }

  /** The fields of a PMT laid out from its parts. */
  lemma {:induction false} PMTFound(programNumber: nat, h: SectionHeader, pcrPID: nat, raw: bytes, streams: bytes, t: bytes)
    requires programNumber < 0x1000 && WellFormedHeader(h) && pcrPID < 0x2000 && |raw| < 0x1000
    ensures var d := PMTHead(programNumber, h, pcrPID, |raw|) + raw + streams + t;
      9 + |raw| <= |d| && U16(d, 0) == programNumber && SectionHeaderAt(d, 2) == h && U16(d, 5) == pcrPID
      && U16(d, 7) == |raw| && d[9..9 + |raw|] == raw && At(d, 9 + |raw|, streams)
  {
    var head := PMTHead(programNumber, h, pcrPID, |raw|);
    var d := head + raw + streams + t;
    var e := EncodeSectionHeader(h);
    assert d[0] == head[0] == Word(programNumber)[0] && d[1] == head[1] == Word(programNumber)[1];
    assert d[2] == head[2] == e[0] && d[3] == head[3] == e[1] && d[4] == head[4] == e[2];
    assert d[5] == head[5] == Word(pcrPID)[0] && d[6] == head[6] == Word(pcrPID)[1];
    assert d[7] == head[7] == Word(|raw|)[0] && d[8] == head[8] == Word(|raw|)[1];
    WordAt(d, 0, programNumber);
    WordAt(d, 5, pcrPID);
    WordAt(d, 7, |raw|);
    SectionHeaderRoundTrip(d, 2, h);
    assert d[9..9 + |raw|] == raw;
    AtMiddle(head + raw, streams, t);
  }

  /** A PMT body whose fields read as given, whose program info and streams decode, is that PMT. */
  lemma {:induction false} PMTOfParts(d: bytes, programNumber: nat, h: SectionHeader, pcrPID: nat, n: nat,
                                      info: seq<Descriptor>, streams: seq<PMTStream>)
    requires programNumber < 0x1000 && pcrPID < 0x2000 && n < 0x1000 && 9 + n <= |d|
    requires U16(d, 0) == programNumber && SectionHeaderAt(d, 2) == h && U16(d, 5) == pcrPID && U16(d, 7) == n
    requires DescriptorsIn(d, 9, n) == Ok(info) && PMTStreamsFrom(d, 9 + n) == Ok(streams)
    ensures PMTOf(d) == Ok(PMT(programNumber, h, pcrPID, info, streams))
  {
    assert U16(d, 7) % 0x1000 == n && U16(d, 0) % 0x1000 == programNumber && U16(d, 5) % 0x2000 == pcrPID;
  }

  /**
   * A PMT written as its fixed fields, its program info and its streams
   * reads back as that table when fewer bytes than a stream head follow.
   */
  lemma {:induction false} PMTRoundTrip(programNumber: nat, h: SectionHeader, pcrPID: nat,
                                        info: seq<Descriptor>, raw: bytes, ws: seq<(PMTStream, bytes)>, t: bytes)
    requires programNumber < 0x1000 && WellFormedHeader(h) && pcrPID < 0x2000 && DescriptorWire(info, raw)
    requires forall w :: w in ws ==> PMTStreamWire(w)
    requires |t| < 5
    ensures PMTOf(PMTHead(programNumber, h, pcrPID, |raw|) + raw + Laid(EncodePMTStream, ws) + t)
            == Ok(PMT(programNumber, h, pcrPID, info, Values(First, ws)))
  {
    var streams := Laid(EncodePMTStream, ws);
    var d := PMTHead(programNumber, h, pcrPID, |raw|) + raw + streams + t;
    var n := |raw|;
    PMTFound(programNumber, h, pcrPID, raw, streams, t);
    assert DescriptorsIn(d, 9, n) == Ok(info);
    PMTStreamsLaidOut(d, 9 + n, ws);
    PMTOfParts(d, programNumber, h, pcrPID, n, info, Values(First, ws));
  }

  // ---------------------------------------------------------------------
  // NIT

  /** A transport stream whose ids fit 16 bits and whose descriptors a 12-bit length counts. */
  predicate TransportStreamWire(w: (TransportStream, bytes))
  {
    w.0.transportStreamId < 0x1_0000 && w.0.originalNetworkId < 0x1_0000 && DescriptorWire(w.0.transportDescriptors, w.1)
  }

  /** One transport stream on the wire: its two ids and its descriptor length, then the descriptor bytes. */
  ghost function EncodeTransportStream(w: (TransportStream, bytes)): (r: bytes)
    ensures |r| == 6 + |w.1|
  {
    Word(w.0.transportStreamId) + Word(w.0.originalNetworkId) + Word(|w.1|) + w.1
  }

  /** The fields of an encoded transport stream found at p. */
  lemma {:induction false} TransportStreamFound(b: bytes, p: nat, s: TransportStream, raw: bytes)
    requires s.transportStreamId < 0x1_0000 && s.originalNetworkId < 0x1_0000 && |raw| < 0x1000
    requires At(b, p, EncodeTransportStream((s, raw)))
    ensures p + 6 + |raw| <= |b| && U16(b, p) == s.transportStreamId && U16(b, p + 2) == s.originalNetworkId
    ensures U16(b, p + 4) == |raw| && b[p + 6..p + 6 + |raw|] == raw
  {
    var e := EncodeTransportStream((s, raw));
    assert b[p] == e[0] && b[p + 1] == e[1] && b[p + 2] == e[2] && b[p + 3] == e[3] && b[p + 4] == e[4] && b[p + 5] == e[5];
    WordAt(b, p, s.transportStreamId);
    WordAt(b, p + 2, s.originalNetworkId);
    WordAt(b, p + 4, |raw|);
    assert e == e[..6] + raw;
    AtSplit(b, p, e[..6], raw);
    AtSlice(b, p + 6, raw);
  }

  /** An encoded transport stream found at p is read. */
  lemma {:induction false} TransportStreamReadBack(b: bytes, p: nat, w: (TransportStream, bytes))
    requires TransportStreamWire(w) && At(b, p, EncodeTransportStream(w))
    ensures TransportStreamAt(b, p) == Read(w.0, p + 6 + |w.1|)
  {
    var s, raw := w.0, w.1;
    TransportStreamFound(b, p, s, raw);
    var h := TransportStreamHeadAt(b, p);
    assert h.entry == s.(transportDescriptors := []) && h.length == |raw|;
    assert DescriptorsIn(b, p + 6, |raw|) == Ok(s.transportDescriptors);
  }

  /** Every encoded transport stream of ws is read wherever it is found. */
  lemma {:induction false} TransportStreamsRead(b: bytes, ws: seq<(TransportStream, bytes)>)
    requires forall w :: w in ws ==> TransportStreamWire(w)
    ensures Reads(b, TransportStreamAt, EncodeTransportStream, First, ws)
  {
    forall w, p: nat | w in ws && At(b, p, EncodeTransportStream(w))
      ensures TransportStreamAt(b, p) == Read(First(w), p + |EncodeTransportStream(w)|)
    {
      TransportStreamReadBack(b, p, w);
    }
  }

  /** A transport stream read at p is kept, and the loop goes on after it. */
  lemma {:induction false} TransportStreamWindow(b: bytes, p: nat, x: TransportStream, next: nat)
    requires TransportStreamAt(b, p) == Read(x, next)
    ensures TransportStreamsFrom(b, p) == Chain([x], TransportStreamsFrom(b, next))
  {
  }

  /** The transport stream loop ends, with nothing more, where fewer bytes than a transport stream head are left. */
  lemma {:induction false} TransportStreamsEnd(b: bytes, o: nat)
    requires |b| < o + 6
    ensures TransportStreamsFrom(b, o) == Ok([])
  {
  }

  /** Wherever the transport stream step reads an entry, the loop keeps it and goes on after it. */
  lemma {:induction false} TransportStreamsUnfold(b: bytes)
    ensures Unfolds(b, TransportStreamsFrom, TransportStreamAt)
  {
    forall p: nat, x, next: nat | TransportStreamAt(b, p) == Read(x, next)
      ensures TransportStreamsFrom(b, p) == Chain([x], TransportStreamsFrom(b, next))
    {
      TransportStreamWindow(b, p, x, next);
    }
  }

  /** The loop over a run of transport streams its step reads. */
  lemma {:induction false} TransportStreamsWalk(b: bytes, o: nat, ws: seq<(TransportStream, bytes)>)
    requires Reads(b, TransportStreamAt, EncodeTransportStream, First, ws) && At(b, o, Laid(EncodeTransportStream, ws))
    ensures TransportStreamsFrom(b, o) == Chain(Values(First, ws), TransportStreamsFrom(b, o + |Laid(EncodeTransportStream, ws)|))
  {
    TransportStreamsUnfold(b);
    LaidWalk(b, TransportStreamsFrom, TransportStreamAt, EncodeTransportStream, First, ws, o);
  }

  /** Wherever fewer bytes than an entry head are left, the loop ends. */
  lemma {:induction false} TransportStreamsEnds(b: bytes)
    ensures Ends(b, TransportStreamsFrom, 6)
  {
    forall p: nat | |b| < p + 6
      ensures TransportStreamsFrom(b, p) == Ok([])
    {
      TransportStreamsEnd(b, p);
    }
  }

  /** The loop over a run its step reads, followed by too few bytes for another entry. */
  lemma {:induction false} TransportStreamsWalkOut(b: bytes, o: nat, ws: seq<(TransportStream, bytes)>)
    requires Reads(b, TransportStreamAt, EncodeTransportStream, First, ws) && At(b, o, Laid(EncodeTransportStream, ws))
    requires |b| < o + |Laid(EncodeTransportStream, ws)| + 6
    ensures TransportStreamsFrom(b, o) == Ok(Values(First, ws))
  {
    TransportStreamsUnfold(b);
    TransportStreamsEnds(b);
    LaidWhole(b, TransportStreamsFrom, TransportStreamAt, EncodeTransportStream, First, ws, o, 6);
  }

  /** The transport stream loop reads a run of encoded transport streams, then goes on after them. */
  lemma {:induction false} TransportStreamsRoundTrip(b: bytes, o: nat, ws: seq<(TransportStream, bytes)>)
    requires forall w :: w in ws ==> TransportStreamWire(w)
    requires At(b, o, Laid(EncodeTransportStream, ws))
    ensures TransportStreamsFrom(b, o) == Chain(Values(First, ws), TransportStreamsFrom(b, o + |Laid(EncodeTransportStream, ws)|))
  {
    TransportStreamsRead(b, ws);
    TransportStreamsWalk(b, o, ws);
  }

  /** A run of encoded transport streams followed by fewer than 6 bytes is read as exactly those transport streams. */
  lemma {:induction false} TransportStreamsLaidOut(b: bytes, o: nat, ws: seq<(TransportStream, bytes)>)
    requires forall w :: w in ws ==> TransportStreamWire(w)
    requires At(b, o, Laid(EncodeTransportStream, ws)) && |b| < o + |Laid(EncodeTransportStream, ws)| + 6
    ensures TransportStreamsFrom(b, o) == Ok(Values(First, ws))
  {
    TransportStreamsRead(b, ws);
    TransportStreamsWalkOut(b, o, ws);
  }

  /** The transport stream loop of a NIT reads exactly the streams laid out in it. */
  lemma {:induction false} TransportStreamLoopRoundTrip(ws: seq<(TransportStream, bytes)>)
    requires forall w :: w in ws ==> TransportStreamWire(w)
    ensures TransportStreamsFrom(Laid(EncodeTransportStream, ws), 0) == Ok(Values(First, ws))
  {
    var l := Laid(EncodeTransportStream, ws);
    AtPrefix(l, []);
    assert l + [] == l;
    TransportStreamsLaidOut(l, 0, ws);
  }

  /** A NIT's 7 fixed bytes: network id, header and network descriptor length. */
  function NITHead(networkId: nat, h: SectionHeader, descriptorsLength: nat): (r: bytes)
    ensures |r| == 7
  {
    Word(networkId) + EncodeSectionHeader(h) + Word(descriptorsLength)
  }

  /** The fields of a NIT laid out from its parts. */
  lemma {:induction false} NITFound(networkId: nat, h: SectionHeader, raw: bytes, loop: bytes, t: bytes)
    requires networkId < 0x1_0000 && WellFormedHeader(h) && |raw| < 0x1000 && |loop| < 0x1000
    ensures var d := NITHead(networkId, h, |raw|) + raw + Word(|loop|) + loop + t;
      9 + |raw| + |loop| <= |d| && U16(d, 0) == networkId && SectionHeaderAt(d, 2) == h && U16(d, 5) % 0x1000 == |raw|
      && d[7..7 + |raw|] == raw && U16(d, 7 + |raw|) == |loop| && d[9 + |raw|..9 + |raw| + |loop|] == loop
  {
    var head := NITHead(networkId, h, |raw|);
    var d := head + raw + Word(|loop|) + loop + t;
    var e := EncodeSectionHeader(h);
    var n := |raw|;
    assert d[0] == head[0] == Word(networkId)[0] && d[1] == head[1] == Word(networkId)[1];
    assert d[2] == head[2] == e[0] && d[3] == head[3] == e[1] && d[4] == head[4] == e[2];
    assert d[5] == head[5] == Word(n)[0] && d[6] == head[6] == Word(n)[1];
    assert d[7 + n] == Word(|loop|)[0] && d[8 + n] == Word(|loop|)[1];
    WordAt(d, 0, networkId);
    WordAt(d, 5, n);
    WordAt(d, 7 + n, |loop|);
    SectionHeaderRoundTrip(d, 2, h);
    assert d[7..7 + n] == raw;
    assert d[9 + n..9 + n + |loop|] == loop;
  }

  /** A NIT body whose fields read as given, whose descriptors and stream loop decode, is that NIT. */
  lemma {:induction false} NITOfParts(tableId: nat, d: bytes, networkId: nat, h: SectionHeader, n: nat,
                                      net: seq<Descriptor>, streams: seq<TransportStream>)
    requires 7 + n <= |d|
    requires U16(d, 0) == networkId && SectionHeaderAt(d, 2) == h && U16(d, 5) % 0x1000 == n
    requires DescriptorsIn(d, 7, n) == Ok(net) && NITStreamsOf(d, 7 + n) == Ok(streams)
    ensures NITOf(tableId, d) == Ok(NIT(tableId == TABLE_ID_NIT_ACTUAL, networkId, h, net, streams))
  {
  }

  /**
   * A NIT written as its fixed fields, its network descriptors and a loop of
   * transport streams reads back as that table, whatever follows the loop.
   */
  lemma {:induction false} NITRoundTrip(tableId: nat, networkId: nat, h: SectionHeader, net: seq<Descriptor>, raw: bytes,
                                        ws: seq<(TransportStream, bytes)>, t: bytes)
    requires networkId < 0x1_0000 && WellFormedHeader(h) && DescriptorWire(net, raw)
    requires forall w :: w in ws ==> TransportStreamWire(w)
    requires |Laid(EncodeTransportStream, ws)| < 0x1000
    ensures var loop := Laid(EncodeTransportStream, ws);
      NITOf(tableId, NITHead(networkId, h, |raw|) + raw + Word(|loop|) + loop + t)
      == Ok(NIT(tableId == TABLE_ID_NIT_ACTUAL, networkId, h, net, Values(First, ws)))
  {
    var loop := Laid(EncodeTransportStream, ws);
    var d := NITHead(networkId, h, |raw|) + raw + Word(|loop|) + loop + t;
    var n := |raw|;
    NITFound(networkId, h, raw, loop, t);
    assert DescriptorsIn(d, 7, n) == Ok(net) by {
      assert DescriptorsFrom(raw, 0) == Ok(net);
    }
    assert NITStreamsOf(d, 7 + n) == Ok(Values(First, ws)) by {
      assert U16(d, 7 + n) % 0x1000 == |loop|;
      assert Js.Slice(d, 9 + n, 9 + n + |loop|) == loop;
      TransportStreamLoopRoundTrip(ws);
    }
    NITOfParts(tableId, d, networkId, h, n, net, Values(First, ws));
  }

  // ---------------------------------------------------------------------
  // BIT

  /** A broadcaster whose id fits 16 bits and whose descriptors a 12-bit length counts. */
  predicate BroadcasterWire(w: (Broadcaster, bytes))
  {
    w.0.broadcasterId < 0x1_0000 && DescriptorWire(w.0.broadcasterDescriptors, w.1)
  }

  /** One broadcaster on the wire: its id and its descriptor length, then the descriptor bytes. */
  ghost function EncodeBroadcaster(w: (Broadcaster, bytes)): (r: bytes)
    ensures |r| == 4 + |w.1|
  {
    Word(w.0.broadcasterId) + Word(|w.1|) + w.1
  }

  /** The fields of an encoded broadcaster found at p. */
  lemma {:induction false} BroadcasterFound(b: bytes, p: nat, s: Broadcaster, raw: bytes)
    requires s.broadcasterId < 0x1_0000 && |raw| < 0x1000
    requires At(b, p, EncodeBroadcaster((s, raw)))
    ensures p + 4 + |raw| <= |b| && U16(b, p) == s.broadcasterId && U16(b, p + 2) == |raw| && b[p + 4..p + 4 + |raw|] == raw
  {
    var e := EncodeBroadcaster((s, raw));
    assert b[p] == e[0] && b[p + 1] == e[1] && b[p + 2] == e[2] && b[p + 3] == e[3];
    WordAt(b, p, s.broadcasterId);
    WordAt(b, p + 2, |raw|);
    assert e == e[..4] + raw;
    AtSplit(b, p, e[..4], raw);
    AtSlice(b, p + 4, raw);
  }

  /** An encoded broadcaster found at p is read. */
  lemma {:induction false} BroadcasterReadBack(b: bytes, p: nat, w: (Broadcaster, bytes))
    requires BroadcasterWire(w) && At(b, p, EncodeBroadcaster(w))
    ensures BroadcasterAt(b, p) == Read(w.0, p + 4 + |w.1|)
  {
    var s, raw := w.0, w.1;
    BroadcasterFound(b, p, s, raw);
    var h := BroadcasterHeadAt(b, p);
    assert h.entry == s.(broadcasterDescriptors := []) && h.length == |raw|;
    assert DescriptorsIn(b, p + 4, |raw|) == Ok(s.broadcasterDescriptors);
  }

  /** Every encoded broadcaster of ws is read wherever it is found. */
  lemma {:induction false} BroadcastersRead(b: bytes, ws: seq<(Broadcaster, bytes)>)
    requires forall w :: w in ws ==> BroadcasterWire(w)
    ensures Reads(b, BroadcasterAt, EncodeBroadcaster, First, ws)
  {
    forall w, p: nat | w in ws && At(b, p, EncodeBroadcaster(w))
      ensures BroadcasterAt(b, p) == Read(First(w), p + |EncodeBroadcaster(w)|)
    {
      BroadcasterReadBack(b, p, w);
    }
  }

  /** A broadcaster read at p is kept, and the loop goes on after it. */
  lemma {:induction false} BroadcasterWindow(b: bytes, p: nat, x: Broadcaster, next: nat)
    requires BroadcasterAt(b, p) == Read(x, next)
    ensures BroadcastersFrom(b, p) == Chain([x], BroadcastersFrom(b, next))
  {
  }

  /** The broadcaster loop ends, with nothing more, where fewer than 3 bytes are left. */
  lemma {:induction false} BroadcastersEnd(b: bytes, o: nat)
    requires |b| < o + 3
    ensures BroadcastersFrom(b, o) == Ok([])
  {
  }

  /** Wherever the broadcaster step reads an entry, the loop keeps it and goes on after it. */
  lemma {:induction false} BroadcastersUnfold(b: bytes)
    ensures Unfolds(b, BroadcastersFrom, BroadcasterAt)
  {
    forall p: nat, x, next: nat | BroadcasterAt(b, p) == Read(x, next)
      ensures BroadcastersFrom(b, p) == Chain([x], BroadcastersFrom(b, next))
    {
      BroadcasterWindow(b, p, x, next);
    }
  }

  /** The loop over a run of broadcasters its step reads. */
  lemma {:induction false} BroadcastersWalk(b: bytes, o: nat, ws: seq<(Broadcaster, bytes)>)
    requires Reads(b, BroadcasterAt, EncodeBroadcaster, First, ws) && At(b, o, Laid(EncodeBroadcaster, ws))
    ensures BroadcastersFrom(b, o) == Chain(Values(First, ws), BroadcastersFrom(b, o + |Laid(EncodeBroadcaster, ws)|))
  {
    BroadcastersUnfold(b);
    LaidWalk(b, BroadcastersFrom, BroadcasterAt, EncodeBroadcaster, First, ws, o);
  }

  /** Wherever fewer bytes than an entry head are left, the loop ends. */
  lemma {:induction false} BroadcastersEnds(b: bytes)
    ensures Ends(b, BroadcastersFrom, 3)
  {
    forall p: nat | |b| < p + 3
      ensures BroadcastersFrom(b, p) == Ok([])
    {
      BroadcastersEnd(b, p);
    }
  }

  /** The loop over a run its step reads, followed by too few bytes for another entry. */
  lemma {:induction false} BroadcastersWalkOut(b: bytes, o: nat, ws: seq<(Broadcaster, bytes)>)
    requires Reads(b, BroadcasterAt, EncodeBroadcaster, First, ws) && At(b, o, Laid(EncodeBroadcaster, ws))
    requires |b| < o + |Laid(EncodeBroadcaster, ws)| + 3
    ensures BroadcastersFrom(b, o) == Ok(Values(First, ws))
  {
    BroadcastersUnfold(b);
    BroadcastersEnds(b);
    LaidWhole(b, BroadcastersFrom, BroadcasterAt, EncodeBroadcaster, First, ws, o, 3);
  }

  /** The broadcaster loop reads a run of encoded broadcasters, then goes on after them. */
  lemma {:induction false} BroadcastersRoundTrip(b: bytes, o: nat, ws: seq<(Broadcaster, bytes)>)
    requires forall w :: w in ws ==> BroadcasterWire(w)
    requires At(b, o, Laid(EncodeBroadcaster, ws))
    ensures BroadcastersFrom(b, o) == Chain(Values(First, ws), BroadcastersFrom(b, o + |Laid(EncodeBroadcaster, ws)|))
  {
    BroadcastersRead(b, ws);
    BroadcastersWalk(b, o, ws);
  }

  /** A run of encoded broadcasters followed by fewer than 3 bytes is read as exactly those broadcasters. */
  lemma {:induction false} BroadcastersLaidOut(b: bytes, o: nat, ws: seq<(Broadcaster, bytes)>)
    requires forall w :: w in ws ==> BroadcasterWire(w)
    requires At(b, o, Laid(EncodeBroadcaster, ws)) && |b| < o + |Laid(EncodeBroadcaster, ws)| + 3
    ensures BroadcastersFrom(b, o) == Ok(Values(First, ws))
  {
    BroadcastersRead(b, ws);
    BroadcastersWalkOut(b, o, ws);
  }

  /** A BIT's 7 fixed bytes: original network id, header and first descriptor length. */
  function BITHead(originalNetworkId: nat, h: SectionHeader, descriptorsLength: nat): (r: bytes)
    ensures |r| == 7
  {
    Word(originalNetworkId) + EncodeSectionHeader(h) + Word(descriptorsLength)
  }

  /** The fields of a BIT laid out from its parts. */
  lemma {:induction false} BITFound(originalNetworkId: nat, h: SectionHeader, raw: bytes, loop: bytes, t: bytes)
    requires originalNetworkId < 0x1_0000 && WellFormedHeader(h) && |raw| < 0x1000
    ensures var d := BITHead(originalNetworkId, h, |raw|) + raw + loop + t;
      7 + |raw| <= |d| && U16(d, 0) == originalNetworkId && SectionHeaderAt(d, 2) == h
      && U16(d, 5) == |raw| && d[7..7 + |raw|] == raw && At(d, 7 + |raw|, loop)
  {
    var head := BITHead(originalNetworkId, h, |raw|);
    var d := head + raw + loop + t;
    var e := EncodeSectionHeader(h);
    assert d[0] == head[0] == Word(originalNetworkId)[0] && d[1] == head[1] == Word(originalNetworkId)[1];
    assert d[2] == head[2] == e[0] && d[3] == head[3] == e[1] && d[4] == head[4] == e[2];
    assert d[5] == head[5] == Word(|raw|)[0] && d[6] == head[6] == Word(|raw|)[1];
    WordAt(d, 0, originalNetworkId);
    WordAt(d, 5, |raw|);
    SectionHeaderRoundTrip(d, 2, h);
    assert d[7..7 + |raw|] == raw;
    AtMiddle(head + raw, loop, t);
  }

  /** A BIT body whose fields read as given, whose descriptors and broadcasters decode, is that BIT. */
  lemma {:induction false} BITOfParts(d: bytes, originalNetworkId: nat, h: SectionHeader, n: nat,
                                      first: seq<Descriptor>, broadcasters: seq<Broadcaster>)
    requires n < 0x1000 && 7 + n <= |d|
    requires U16(d, 0) == originalNetworkId && SectionHeaderAt(d, 2) == h && U16(d, 5) == n
    requires DescriptorsIn(d, 7, n) == Ok(first) && BroadcastersFrom(d, 7 + n) == Ok(broadcasters)
    ensures BITOf(d) == Ok(BIT(originalNetworkId, h, first, broadcasters))
  {
    assert U16(d, 5) % 0x1000 == n;
  }

  /**
   * A BIT written as its fixed fields, its first descriptors and its
   * broadcasters reads back as that table when fewer than 3 bytes follow
   * (3 bytes would throw; see `BroadcasterAt`).
   */
  lemma {:induction false} BITRoundTrip(originalNetworkId: nat, h: SectionHeader, first: seq<Descriptor>, raw: bytes,
                                        ws: seq<(Broadcaster, bytes)>, t: bytes)
    requires originalNetworkId < 0x1_0000 && WellFormedHeader(h) && DescriptorWire(first, raw)
    requires forall w :: w in ws ==> BroadcasterWire(w)
    requires |t| < 3
    ensures BITOf(BITHead(originalNetworkId, h, |raw|) + raw + Laid(EncodeBroadcaster, ws) + t)
            == Ok(BIT(originalNetworkId, h, first, Values(First, ws)))
  {
    var loop := Laid(EncodeBroadcaster, ws);
    var d := BITHead(originalNetworkId, h, |raw|) + raw + loop + t;
    var n := |raw|;
    BITFound(originalNetworkId, h, raw, loop, t);
    assert DescriptorsIn(d, 7, n) == Ok(first);
    BroadcastersLaidOut(d, 7 + n, ws);
    BITOfParts(d, originalNetworkId, h, n, first, Values(First, ws));
  }

  // ---------------------------------------------------------------------
  // SDT

  /** The EIT flag byte of a service: three reserved zero bits, then the five flags from the high one down. */
  function ServiceFlags(s: Service): (r: nat)
  {
    Bit(s.hEITFlag) * 0x10 + Bit(s.mEITFlag) * 8 + Bit(s.lEITFlag) * 4 + Bit(s.eitScheduleFlag) * 2 + Bit(s.eitPresentFollowingFlag)
  }

  /** The five flags come back out of the flag byte. */
  lemma {:induction false} ServiceFlagsRead(s: Service)
    ensures var f := ServiceFlags(s);
      f < 0x100 && (f / 0x10 % 2 == 1 <==> s.hEITFlag) && (f / 8 % 2 == 1 <==> s.mEITFlag) && (f / 4 % 2 == 1 <==> s.lEITFlag)
      && (f / 2 % 2 == 1 <==> s.eitScheduleFlag) && (f % 2 == 1 <==> s.eitPresentFollowingFlag)
  {
  }

  /** A service whose id fits 16 bits, whose running status fits 3 and whose descriptors a 12-bit length counts. */
  predicate ServiceWire(w: (Service, bytes))
  {
    w.0.serviceId < 0x1_0000 && w.0.runningStatus < 8 && DescriptorWire(w.0.descriptors, w.1)
  }

  /** One service on the wire: its id, its flag byte and its status word, then the descriptor bytes. */
  ghost function EncodeService(w: (Service, bytes)): (r: bytes)
    ensures |r| == 5 + |w.1|
  {
    Word(w.0.serviceId) + [(ServiceFlags(w.0) % 0x100) as byte]
    + Word(StatusWord(w.0.runningStatus, w.0.freeCAMode, |w.1|)) + w.1
  }

  /** The fields of an encoded service found at p. */
  lemma {:induction false} ServiceFound(b: bytes, p: nat, s: Service, raw: bytes)
    requires s.serviceId < 0x1_0000 && s.runningStatus < 8 && |raw| < 0x1000
    requires At(b, p, EncodeService((s, raw)))
    ensures p + 5 + |raw| <= |b| && U16(b, p) == s.serviceId && b[p + 2] == ServiceFlags(s)
    ensures U16(b, p + 3) == StatusWord(s.runningStatus, s.freeCAMode, |raw|) && b[p + 5..p + 5 + |raw|] == raw
  {
    var e := EncodeService((s, raw));
    var w := StatusWord(s.runningStatus, s.freeCAMode, |raw|);
    ServiceFlagsRead(s);
    StatusWordRead(s.runningStatus, s.freeCAMode, |raw|);
    assert b[p] == e[0] && b[p + 1] == e[1] && b[p + 2] == e[2] && b[p + 3] == e[3] && b[p + 4] == e[4];
    WordAt(b, p, s.serviceId);
    WordAt(b, p + 3, w);
    assert e == e[..5] + raw;
    AtSplit(b, p, e[..5], raw);
    AtSlice(b, p + 5, raw);
  }

  /** An encoded service found at p is read. */
  lemma {:induction false} ServiceReadBack(b: bytes, p: nat, w: (Service, bytes))
    requires ServiceWire(w) && At(b, p, EncodeService(w))
    ensures ServiceAt(b, p) == Read(w.0, p + 5 + |w.1|)
  {
    var s, raw := w.0, w.1;
    ServiceFound(b, p, s, raw);
    ServiceFlagsRead(s);
    StatusWordRead(s.runningStatus, s.freeCAMode, |raw|);
    var h := ServiceHeadAt(b, p);
    assert h.entry == s.(descriptors := []) && h.length == |raw|;
    assert DescriptorsIn(b, p + 5, |raw|) == Ok(s.descriptors);
  }

  /** Every encoded service of ws is read wherever it is found. */
  lemma {:induction false} ServicesRead(b: bytes, ws: seq<(Service, bytes)>)
    requires forall w :: w in ws ==> ServiceWire(w)
    ensures Reads(b, ServiceAt, EncodeService, First, ws)
  {
    forall w, p: nat | w in ws && At(b, p, EncodeService(w))
      ensures ServiceAt(b, p) == Read(First(w), p + |EncodeService(w)|)
    {
      ServiceReadBack(b, p, w);
    }
  }

  /** A service read at p is kept, and the loop goes on after it. */
  lemma {:induction false} ServiceWindow(b: bytes, p: nat, x: Service, next: nat)
    requires ServiceAt(b, p) == Read(x, next)
    ensures ServicesFrom(b, p) == Chain([x], ServicesFrom(b, next))
  {
  }

  /** The service loop ends, with nothing more, where fewer bytes than a service head are left. */
  lemma {:induction false} ServicesEnd(b: bytes, o: nat)
    requires |b| < o + 5
    ensures ServicesFrom(b, o) == Ok([])
  {
  }

  /** Wherever the service step reads an entry, the loop keeps it and goes on after it. */
  lemma {:induction false} ServicesUnfold(b: bytes)
    ensures Unfolds(b, ServicesFrom, ServiceAt)
  {
    forall p: nat, x, next: nat | ServiceAt(b, p) == Read(x, next)
      ensures ServicesFrom(b, p) == Chain([x], ServicesFrom(b, next))
    {
      ServiceWindow(b, p, x, next);
    }
  }

  /** The loop over a run of services its step reads. */
  lemma {:induction false} ServicesWalk(b: bytes, o: nat, ws: seq<(Service, bytes)>)
    requires Reads(b, ServiceAt, EncodeService, First, ws) && At(b, o, Laid(EncodeService, ws))
    ensures ServicesFrom(b, o) == Chain(Values(First, ws), ServicesFrom(b, o + |Laid(EncodeService, ws)|))
  {
    ServicesUnfold(b);
    LaidWalk(b, ServicesFrom, ServiceAt, EncodeService, First, ws, o);
  }

  /** Wherever fewer bytes than an entry head are left, the loop ends. */
  lemma {:induction false} ServicesEnds(b: bytes)
    ensures Ends(b, ServicesFrom, 5)
  {
    forall p: nat | |b| < p + 5
      ensures ServicesFrom(b, p) == Ok([])
    {
      ServicesEnd(b, p);
    }
  }

  /** The loop over a run its step reads, followed by too few bytes for another entry. */
  lemma {:induction false} ServicesWalkOut(b: bytes, o: nat, ws: seq<(Service, bytes)>)
    requires Reads(b, ServiceAt, EncodeService, First, ws) && At(b, o, Laid(EncodeService, ws))
    requires |b| < o + |Laid(EncodeService, ws)| + 5
    ensures ServicesFrom(b, o) == Ok(Values(First, ws))
  {
    ServicesUnfold(b);
    ServicesEnds(b);
    LaidWhole(b, ServicesFrom, ServiceAt, EncodeService, First, ws, o, 5);
  }

  /** The service loop reads a run of encoded services, then goes on after them. */
  lemma {:induction false} ServicesRoundTrip(b: bytes, o: nat, ws: seq<(Service, bytes)>)
    requires forall w :: w in ws ==> ServiceWire(w)
    requires At(b, o, Laid(EncodeService, ws))
    ensures ServicesFrom(b, o) == Chain(Values(First, ws), ServicesFrom(b, o + |Laid(EncodeService, ws)|))
  {
    ServicesRead(b, ws);
    ServicesWalk(b, o, ws);
  }

  /** A run of encoded services followed by fewer than 5 bytes is read as exactly those services. */
  lemma {:induction false} ServicesLaidOut(b: bytes, o: nat, ws: seq<(Service, bytes)>)
    requires forall w :: w in ws ==> ServiceWire(w)
    requires At(b, o, Laid(EncodeService, ws)) && |b| < o + |Laid(EncodeService, ws)| + 5
    ensures ServicesFrom(b, o) == Ok(Values(First, ws))
  {
    ServicesRead(b, ws);
    ServicesWalkOut(b, o, ws);
  }

  /** An SDT's 8 fixed bytes: transport stream id, header, original network id and a reserved byte. */
  function SDTHead(transportStreamId: nat, h: SectionHeader, originalNetworkId: nat): (r: bytes)
    ensures |r| == 8
  {
    Word(transportStreamId) + EncodeSectionHeader(h) + Word(originalNetworkId) + [0]
  }

  /** The fields of an SDT laid out from its parts. */
  lemma {:induction false} SDTFound(transportStreamId: nat, h: SectionHeader, originalNetworkId: nat, loop: bytes, t: bytes)
    requires transportStreamId < 0x1_0000 && WellFormedHeader(h) && originalNetworkId < 0x1_0000
    ensures var d := SDTHead(transportStreamId, h, originalNetworkId) + loop + t;
      8 <= |d| && U16(d, 0) == transportStreamId && SectionHeaderAt(d, 2) == h && U16(d, 5) == originalNetworkId
      && At(d, 8, loop)
  {
    var head := SDTHead(transportStreamId, h, originalNetworkId);
    var d := head + loop + t;
    var e := EncodeSectionHeader(h);
    assert d[0] == head[0] == Word(transportStreamId)[0] && d[1] == head[1] == Word(transportStreamId)[1];
    assert d[2] == head[2] == e[0] && d[3] == head[3] == e[1] && d[4] == head[4] == e[2];
    assert d[5] == head[5] == Word(originalNetworkId)[0] && d[6] == head[6] == Word(originalNetworkId)[1];
    WordAt(d, 0, transportStreamId);
    WordAt(d, 5, originalNetworkId);
    SectionHeaderRoundTrip(d, 2, h);
    AtMiddle(head, loop, t);
  }

  /**
   * An SDT written as its fixed fields and its services reads back as that
   * table when fewer bytes than a service head follow.
   */
  lemma {:induction false} SDTRoundTrip(tableId: nat, transportStreamId: nat, h: SectionHeader, originalNetworkId: nat,
                                        ws: seq<(Service, bytes)>, t: bytes)
    requires transportStreamId < 0x1_0000 && WellFormedHeader(h) && originalNetworkId < 0x1_0000
    requires forall w :: w in ws ==> ServiceWire(w)
    requires |t| < 5
    ensures SDTOf(tableId, SDTHead(transportStreamId, h, originalNetworkId) + Laid(EncodeService, ws) + t)
            == Ok(SDT(tableId == TABLE_ID_SDT_ACTUAL, transportStreamId, h, originalNetworkId, Values(First, ws)))
  {
    var loop := Laid(EncodeService, ws);
    var d := SDTHead(transportStreamId, h, originalNetworkId) + loop + t;
    SDTFound(transportStreamId, h, originalNetworkId, loop, t);
    ServicesLaidOut(d, 8, ws);
  }

  // ---------------------------------------------------------------------
  // EIT

  /** A start time on the wire: all ones bits when absent. */
  function StartWord(startTime: Option<nat>): (r: nat)
    ensures startTime.Some? && startTime.value < 0xff_ffff_ffff ==> StartTimeOf(r) == startTime
    ensures startTime.None? ==> StartTimeOf(r) == None
  {
    if startTime.None? then 0xff_ffff_ffff else startTime.value
  }

  /** A duration on the wire: all ones bits when absent. */
  function DurationWord(duration: Option<nat>): (r: nat)
    ensures duration.Some? && duration.value < 0xff_ffff ==> DurationOf(r) == duration
    ensures duration.None? ==> DurationOf(r) == None
  {
    if duration.None? then 0xff_ffff else duration.value
  }

  /** An event whose fields fit their widths, a present time or duration not being all ones bits. */
  predicate EventWire(w: (EventInformation, bytes))
  {
    var e := w.0;
    e.eventId < 0x1_0000 && (e.startTime.Some? ==> e.startTime.value < 0xff_ffff_ffff)
    && (e.duration.Some? ==> e.duration.value < 0xff_ffff) && e.runningStatus < 8 && DescriptorWire(e.descriptors, w.1)
  }

  /** One event on the wire: id, start time, duration and status word, then the descriptor bytes. */
  ghost function EncodeEvent(w: (EventInformation, bytes)): (r: bytes)
    ensures |r| == 12 + |w.1|
  {
    Word(w.0.eventId) + Word40(StartWord(w.0.startTime)) + Word24(DurationWord(w.0.duration))
    + Word(StatusWord(w.0.runningStatus, w.0.freeCAMode, |w.1|)) + w.1
  }

  /** The fields of an encoded event found at p. */
  lemma {:induction false} EventFound(b: bytes, p: nat, w: (EventInformation, bytes))
    requires EventWire(w) && At(b, p, EncodeEvent(w))
    ensures p + 12 + |w.1| <= |b| && U16(b, p) == w.0.eventId && U40(b, p + 2) == StartWord(w.0.startTime)
    ensures U24(b, p + 7) == DurationWord(w.0.duration) && U16(b, p + 10) == StatusWord(w.0.runningStatus, w.0.freeCAMode, |w.1|)
    ensures b[p + 12..p + 12 + |w.1|] == w.1
  {
    var s, raw := w.0, w.1;
    var id, start, dur := Word(s.eventId), Word40(StartWord(s.startTime)), Word24(DurationWord(s.duration));
    var status := StatusWord(s.runningStatus, s.freeCAMode, |raw|);
    StatusWordRead(s.runningStatus, s.freeCAMode, |raw|);
    AtSplit(b, p, id + start + dur + Word(status), raw);
    AtSplit(b, p, id + start + dur, Word(status));
    AtSplit(b, p, id + start, dur);
    AtSplit(b, p, id, start);
    WordFound(b, p, s.eventId);
    Word40At(b, p + 2, StartWord(s.startTime));
    Word24At(b, p + 7, DurationWord(s.duration));
    WordFound(b, p + 10, status);
    AtSlice(b, p + 12, raw);
  }

  /** An encoded event found at p is read. */
  lemma {:induction false} EventReadBack(b: bytes, p: nat, w: (EventInformation, bytes))
    requires EventWire(w) && At(b, p, EncodeEvent(w))
    ensures EventAt(b, p) == Read(w.0, p + 12 + |w.1|)
  {
    var s, raw := w.0, w.1;
    EventFound(b, p, w);
    StatusWordRead(s.runningStatus, s.freeCAMode, |raw|);
    var h := EventHeadAt(b, p);
    assert h.entry == s.(descriptors := []) && h.length == |raw|;
    assert DescriptorsIn(b, p + 12, |raw|) == Ok(s.descriptors);
  }

  /** Every encoded event of ws is read wherever it is found. */
  lemma {:induction false} EventsRead(b: bytes, ws: seq<(EventInformation, bytes)>)
    requires forall w :: w in ws ==> EventWire(w)
    ensures Reads(b, EventAt, EncodeEvent, First, ws)
  {
    forall w, p: nat | w in ws && At(b, p, EncodeEvent(w))
      ensures EventAt(b, p) == Read(First(w), p + |EncodeEvent(w)|)
    {
      EventReadBack(b, p, w);
    }
  }

  /** An event read at p is kept, and the loop goes on after it. */
  lemma {:induction false} EventWindow(b: bytes, p: nat, x: EventInformation, next: nat)
    requires EventAt(b, p) == Read(x, next)
    ensures EventsFrom(b, p) == Chain([x], EventsFrom(b, next))
  {
  }

  /** The event loop ends, with nothing more, where fewer bytes than a event head are left. */
  lemma {:induction false} EventsEnd(b: bytes, o: nat)
    requires |b| < o + 12
    ensures EventsFrom(b, o) == Ok([])
  {
  }

  /** Wherever the event step reads an entry, the loop keeps it and goes on after it. */
  lemma {:induction false} EventsUnfold(b: bytes)
    ensures Unfolds(b, EventsFrom, EventAt)
  {
    forall p: nat, x, next: nat | EventAt(b, p) == Read(x, next)
      ensures EventsFrom(b, p) == Chain([x], EventsFrom(b, next))
    {
      EventWindow(b, p, x, next);
    }
  }

  /** The loop over a run of events its step reads. */
  lemma {:induction false} EventsWalk(b: bytes, o: nat, ws: seq<(EventInformation, bytes)>)
    requires Reads(b, EventAt, EncodeEvent, First, ws) && At(b, o, Laid(EncodeEvent, ws))
    ensures EventsFrom(b, o) == Chain(Values(First, ws), EventsFrom(b, o + |Laid(EncodeEvent, ws)|))
  {
    EventsUnfold(b);
    LaidWalk(b, EventsFrom, EventAt, EncodeEvent, First, ws, o);
  }

  /** Wherever fewer bytes than an entry head are left, the loop ends. */
  lemma {:induction false} EventsEnds(b: bytes)
    ensures Ends(b, EventsFrom, 12)
  {
    forall p: nat | |b| < p + 12
      ensures EventsFrom(b, p) == Ok([])
    {
      EventsEnd(b, p);
    }
  }

  /** The loop over a run its step reads, followed by too few bytes for another entry. */
  lemma {:induction false} EventsWalkOut(b: bytes, o: nat, ws: seq<(EventInformation, bytes)>)
    requires Reads(b, EventAt, EncodeEvent, First, ws) && At(b, o, Laid(EncodeEvent, ws))
    requires |b| < o + |Laid(EncodeEvent, ws)| + 12
    ensures EventsFrom(b, o) == Ok(Values(First, ws))
  {
    EventsUnfold(b);
    EventsEnds(b);
    LaidWhole(b, EventsFrom, EventAt, EncodeEvent, First, ws, o, 12);
  }

  /** The event loop reads a run of encoded events, then goes on after them. */
  lemma {:induction false} EventsRoundTrip(b: bytes, o: nat, ws: seq<(EventInformation, bytes)>)
    requires forall w :: w in ws ==> EventWire(w)
    requires At(b, o, Laid(EncodeEvent, ws))
    ensures EventsFrom(b, o) == Chain(Values(First, ws), EventsFrom(b, o + |Laid(EncodeEvent, ws)|))
  {
    EventsRead(b, ws);
    EventsWalk(b, o, ws);
  }

  /** A run of encoded events followed by fewer than 12 bytes is read as exactly those events. */
  lemma {:induction false} EventsLaidOut(b: bytes, o: nat, ws: seq<(EventInformation, bytes)>)
    requires forall w :: w in ws ==> EventWire(w)
    requires At(b, o, Laid(EncodeEvent, ws)) && |b| < o + |Laid(EncodeEvent, ws)| + 12
    ensures EventsFrom(b, o) == Ok(Values(First, ws))
  {
    EventsRead(b, ws);
    EventsWalkOut(b, o, ws);
  }

  /**
   * An EIT's 11 fixed bytes: service id, header, transport stream id,
   * original network id, segment last section number and last table id.
   */
  function EITHead(serviceId: nat, h: SectionHeader, transportStreamId: nat, originalNetworkId: nat,
                   segmentLastSectionNumber: nat, lastTableId: nat): (r: bytes)
    ensures |r| == 11
  {
    Word(serviceId) + EncodeSectionHeader(h) + Word(transportStreamId) + Word(originalNetworkId)
    + [(segmentLastSectionNumber % 0x100) as byte, (lastTableId % 0x100) as byte]
  }

  /**
   * An EIT written as its fixed fields and its events reads back as that
   * table, its index fields taken from the table id, when fewer bytes than
   * an event head follow.
   */
  lemma {:induction false} EITRoundTrip(tableId: nat, serviceId: nat, h: SectionHeader, transportStreamId: nat,
                                        originalNetworkId: nat, segmentLastSectionNumber: nat, lastTableId: nat,
                                        ws: seq<(EventInformation, bytes)>, t: bytes)
    requires serviceId < 0x1_0000 && WellFormedHeader(h) && transportStreamId < 0x1_0000 && originalNetworkId < 0x1_0000
    requires segmentLastSectionNumber < 0x100 && lastTableId < 0x100
    requires forall w :: w in ws ==> EventWire(w)
    requires |t| < 12
    ensures var r := EITOf(tableId, EITHead(serviceId, h, transportStreamId, originalNetworkId, segmentLastSectionNumber,
                                            lastTableId) + Laid(EncodeEvent, ws) + t);
      r.Ok? && r.value == EIT(KindOf(tableId), tableId, TableIndexOf(tableId), OtherOf(tableId), serviceId, h,
                              transportStreamId, originalNetworkId, segmentLastSectionNumber, lastTableId,
                              LastTableIndexOf(tableId, lastTableId), Values(First, ws))
  {
    var head := EITHead(serviceId, h, transportStreamId, originalNetworkId, segmentLastSectionNumber, lastTableId);
    var loop := Laid(EncodeEvent, ws);
    var d := head + loop + t;
    EITFound(head, serviceId, h, transportStreamId, originalNetworkId, segmentLastSectionNumber, lastTableId, loop, t);
    EventsLaidOut(d, 11, ws);
  }

  /** The fields of an EIT laid out from its parts. */
  lemma {:induction false} EITFound(head: bytes, serviceId: nat, h: SectionHeader, transportStreamId: nat, originalNetworkId: nat,
                                    segmentLastSectionNumber: nat, lastTableId: nat, loop: bytes, t: bytes)
    requires serviceId < 0x1_0000 && WellFormedHeader(h) && transportStreamId < 0x1_0000 && originalNetworkId < 0x1_0000
    requires segmentLastSectionNumber < 0x100 && lastTableId < 0x100
    requires head == EITHead(serviceId, h, transportStreamId, originalNetworkId, segmentLastSectionNumber, lastTableId)
    ensures var d := head + loop + t;
      11 <= |d| && U16(d, 0) == serviceId && SectionHeaderAt(d, 2) == h && U16(d, 5) == transportStreamId
      && U16(d, 7) == originalNetworkId && d[9] == segmentLastSectionNumber && d[10] == lastTableId && At(d, 11, loop)
  {
    var d := head + loop + t;
    var e := EncodeSectionHeader(h);
    assert d[0] == head[0] == Word(serviceId)[0] && d[1] == head[1] == Word(serviceId)[1];
    assert d[2] == head[2] == e[0] && d[3] == head[3] == e[1] && d[4] == head[4] == e[2];
    assert d[5] == head[5] == Word(transportStreamId)[0] && d[6] == head[6] == Word(transportStreamId)[1];
    assert d[7] == head[7] == Word(originalNetworkId)[0] && d[8] == head[8] == Word(originalNetworkId)[1];
    assert d[9] == head[9] && d[10] == head[10];
    WordAt(d, 0, serviceId);
    WordAt(d, 5, transportStreamId);
    WordAt(d, 7, originalNetworkId);
    SectionHeaderRoundTrip(d, 2, h);
    AtMiddle(head, loop, t);
  }

  // ---------------------------------------------------------------------
  // TOT and CDT

  /**
   * A TOT written as its 40-bit JST time, its descriptor length and its
   * descriptors reads back as that table, whatever follows.
   */
  lemma {:induction false} TOTRoundTrip(jstTime: nat, ds: seq<Descriptor>, raw: bytes, t: bytes)
    requires jstTime < 0x1_0000_0000 * 0x100 && DescriptorWire(ds, raw)
    ensures TOTOf(Word40(jstTime) + Word(|raw|) + raw + t) == Ok(TOT(jstTime, ds))
  {
    var d := Word40(jstTime) + Word(|raw|) + raw + t;
    AtPrefix(Word40(jstTime), Word(|raw|) + raw + t);
    assert d == Word40(jstTime) + (Word(|raw|) + raw + t);
    Word40At(d, 0, jstTime);
    assert d[5] == Word(|raw|)[0] && d[6] == Word(|raw|)[1];
    WordAt(d, 5, |raw|);
    assert U16(d, 5) % 0x1000 == |raw|;
    AtMiddle(Word40(jstTime) + Word(|raw|), raw, t);
    DescriptorsFound(d, 7, ds, raw);
  }

  /** A data module whose fields fit their widths. */
  predicate ModuleWire(m: CommonDataModule)
  {
    m.logoType < 0x100 && m.logoId < 0x200 && m.logoVersion < 0x1000 && |m.data| < 0x1_0000
  }

  /** The data module on the wire: logo type, logo id, logo version and data size, then the data. */
  function EncodeDataModule(m: CommonDataModule): (r: bytes)
    ensures |r| == 7 + |m.data|
  {
    [(m.logoType % 0x100) as byte] + Word(m.logoId) + Word(m.logoVersion) + Word(|m.data|) + m.data
  }

  /** An encoded data module found at p is read, whatever follows it. */
  lemma {:induction false} DataModuleRoundTrip(d: bytes, p: nat, m: CommonDataModule)
    requires ModuleWire(m) && At(d, p, EncodeDataModule(m))
    ensures CDTModuleAt(d, p) == Some(m)
  {
    var e := EncodeDataModule(m);
    assert d[p] == e[0] && d[p + 1] == e[1] && d[p + 2] == e[2] && d[p + 3] == e[3] && d[p + 4] == e[4]
      && d[p + 5] == e[5] && d[p + 6] == e[6];
    WordAt(d, p + 1, m.logoId);
    WordAt(d, p + 3, m.logoVersion);
    WordAt(d, p + 5, |m.data|);
    assert e == e[..7] + m.data;
    AtSplit(d, p, e[..7], m.data);
    AtSlice(d, p + 7, m.data);
    assert U16(d, p + 1) % 0x200 == m.logoId && U16(d, p + 3) % 0x1000 == m.logoVersion;
  }

  /** A CDT's 10 fixed bytes: download data id, header, original network id, data type and descriptor length. */
  function CDTHead(downloadDataId: nat, h: SectionHeader, originalNetworkId: nat, dataType: nat, descriptorsLength: nat): (r: bytes)
    ensures |r| == 10
  {
    Word(downloadDataId) + EncodeSectionHeader(h) + Word(originalNetworkId) + [(dataType % 0x100) as byte]
    + Word(descriptorsLength)
  }

  /** The fields of a CDT laid out from its parts. */
  lemma {:induction false} CDTFound(downloadDataId: nat, h: SectionHeader, originalNetworkId: nat, dataType: nat,
                                    raw: bytes, moduleBytes: bytes, t: bytes)
    requires downloadDataId < 0x1_0000 && WellFormedHeader(h) && originalNetworkId < 0x1_0000 && dataType < 0x100
    requires |raw| < 0x1000
    ensures var d := CDTHead(downloadDataId, h, originalNetworkId, dataType, |raw|) + raw + moduleBytes + t;
      10 + |raw| <= |d| && U16(d, 0) == downloadDataId && SectionHeaderAt(d, 2) == h && U16(d, 5) == originalNetworkId
      && d[7] == dataType && U16(d, 8) == |raw| && At(d, 10, raw) && At(d, 10 + |raw|, moduleBytes)
  {
    var head := CDTHead(downloadDataId, h, originalNetworkId, dataType, |raw|);
    var d := head + raw + moduleBytes + t;
    var e := EncodeSectionHeader(h);
    assert d[0] == head[0] == Word(downloadDataId)[0] && d[1] == head[1] == Word(downloadDataId)[1];
    assert d[2] == head[2] == e[0] && d[3] == head[3] == e[1] && d[4] == head[4] == e[2];
    assert d[5] == head[5] == Word(originalNetworkId)[0] && d[6] == head[6] == Word(originalNetworkId)[1];
    assert d[7] == head[7];
    assert d[8] == head[8] == Word(|raw|)[0] && d[9] == head[9] == Word(|raw|)[1];
    WordAt(d, 0, downloadDataId);
    WordAt(d, 5, originalNetworkId);
    WordAt(d, 8, |raw|);
    SectionHeaderRoundTrip(d, 2, h);
    assert d == head + raw + (moduleBytes + t);
    AtMiddle(head, raw, moduleBytes + t);
    AtMiddle(head + raw, moduleBytes, t);
  }

  /** A CDT body whose fields read as given, whose descriptors and data module decode, is that CDT. */
  lemma {:induction false} CDTOfParts(d: bytes, downloadDataId: nat, h: SectionHeader, originalNetworkId: nat,
                                      dataType: nat, n: nat, ds: seq<Descriptor>, m: CommonDataModule)
    requires n < 0x1000 && 10 + n <= |d|
    requires U16(d, 0) == downloadDataId && SectionHeaderAt(d, 2) == h && U16(d, 5) == originalNetworkId
    requires d[7] == dataType && U16(d, 8) == n
    requires DescriptorsIn(d, 10, n) == Ok(ds) && CDTModuleAt(d, 10 + n) == Some(m)
    ensures CDTOf(d) == Ok(CDT(downloadDataId, h, originalNetworkId, dataType, ds, m))
  {
    var k := U16(d, 8) % 0x1000;
    assert k == n;
    assert DescriptorsIn(d, 10, k) == Ok(ds) && CDTModuleAt(d, 10 + k) == Some(m);
  }

  /**
   * A CDT written as its fixed fields, its descriptors and its data module
   * reads back as that table, whatever follows the module.
   */
  lemma {:induction false} CDTRoundTrip(downloadDataId: nat, h: SectionHeader, originalNetworkId: nat, dataType: nat,
                                        ds: seq<Descriptor>, raw: bytes, m: CommonDataModule, t: bytes)
    requires downloadDataId < 0x1_0000 && WellFormedHeader(h) && originalNetworkId < 0x1_0000 && dataType < 0x100
    requires DescriptorWire(ds, raw) && ModuleWire(m)
    ensures CDTOf(CDTHead(downloadDataId, h, originalNetworkId, dataType, |raw|) + raw + EncodeDataModule(m) + t)
            == Ok(CDT(downloadDataId, h, originalNetworkId, dataType, ds, m))
  {
    var d := CDTHead(downloadDataId, h, originalNetworkId, dataType, |raw|) + raw + EncodeDataModule(m) + t;
    var n := |raw|;
    CDTFound(downloadDataId, h, originalNetworkId, dataType, raw, EncodeDataModule(m), t);
    DescriptorsFound(d, 10, ds, raw);
    DataModuleRoundTrip(d, 10 + n, m);
    CDTOfParts(d, downloadDataId, h, originalNetworkId, dataType, n, ds, m);
  }
}
