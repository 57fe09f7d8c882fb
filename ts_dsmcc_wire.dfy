// The wire forms of the DSM-CC sections of src/ts/si.ts and their round
// trips: a download data header written with its adaptation field and a
// message is read back as that header and message, and a DII or a DDB laid
// out field by field is read back as that section.  The reserved byte of
// the header is written as zero; the reader skips it.
module TsDsmccWire {
  import opened Js
  import opened Decoding
  import opened Layouts
  import opened Sections
  import opened TsDescriptors
  import opened TsSi

  // ---------------------------------------------------------------------
  // Download data header

  /** An adaptation field whose type fits a byte and whose length, with the type, fits one too. */
  predicate AdaptationWire(a: Option<Adaptation>)
  {
    a.Some? ==> a.value.adaptationType < 0x100 && |a.value.adaptationData| < 0xff
  }

  /** The adaptation field on the wire: nothing, or its type byte and its data. */
  function EncodeAdaptation(a: Option<Adaptation>): (r: bytes)
    ensures |r| == if a.Some? then 1 + |a.value.adaptationData| else 0
  {
    match a
    case None => []
    case Some(x) => [(x.adaptationType % 0x100) as byte] + x.adaptationData
  }

  /** A download data header whose fields fit their bytes. */
  predicate DSMCCHeaderWire(h: DSMCCDownloadDataHeader)
  {
    h.protocolDiscriminator < 0x100 && h.dsmccType < 0x100 && h.messageId < 0x1_0000
    && h.transactionId < 0x1_0000_0000 && AdaptationWire(h.adaptation)
  }

  /**
   * The twelve fixed bytes of a download data header before a message of
   * messageLength bytes: the length written counts the adaptation field too.
   */
  function DSMCCFixed(h: DSMCCDownloadDataHeader, messageLength: nat): (r: bytes)
    ensures |r| == 12
  {
    var a := |EncodeAdaptation(h.adaptation)|;
    [(h.protocolDiscriminator % 0x100) as byte, (h.dsmccType % 0x100) as byte] + Word(h.messageId)
    + Word32(h.transactionId) + [0, (a % 0x100) as byte] + Word(a + messageLength)
  }

  /** A download data header followed by its message. */
  function EncodeDSMCC(h: DSMCCDownloadDataHeader, message: bytes): (r: bytes)
    ensures |r| == 12 + |EncodeAdaptation(h.adaptation)| + |message|
  {
    DSMCCFixed(h, |message|) + EncodeAdaptation(h.adaptation) + message
  }

  /** The fields of the twelve fixed bytes found at o. */
  lemma {:induction false} DSMCCFixedFound(b: bytes, o: nat, h: DSMCCDownloadDataHeader, n: nat)
    requires DSMCCHeaderWire(h) && |EncodeAdaptation(h.adaptation)| + n < 0x1_0000
    requires At(b, o, DSMCCFixed(h, n))
    ensures o + 12 <= |b| && b[o] == h.protocolDiscriminator && b[o + 1] == h.dsmccType
    ensures U16(b, o + 2) == h.messageId && U32(b, o + 4) == h.transactionId
    ensures b[o + 9] == |EncodeAdaptation(h.adaptation)| && U16(b, o + 10) == |EncodeAdaptation(h.adaptation)| + n
  {
    var a := |EncodeAdaptation(h.adaptation)|;
    var kinds := [(h.protocolDiscriminator % 0x100) as byte, (h.dsmccType % 0x100) as byte];
    var lengths: bytes := [0, (a % 0x100) as byte];
    AtSplit(b, o, kinds + Word(h.messageId) + Word32(h.transactionId) + lengths, Word(a + n));
    AtSplit(b, o, kinds + Word(h.messageId) + Word32(h.transactionId), lengths);
    AtSplit(b, o, kinds + Word(h.messageId), Word32(h.transactionId));
    AtSplit(b, o, kinds, Word(h.messageId));
    assert b[o] == kinds[0] && b[o + 1] == kinds[1] && b[o + 9] == lengths[1];
    WordFound(b, o + 2, h.messageId);
    Word32At(b, o + 4, h.transactionId);
    WordFound(b, o + 10, a + n);
  }

  /** An encoded adaptation field found at o is read back. */
  lemma {:induction false} AdaptationFound(b: bytes, o: nat, a: Option<Adaptation>)
    requires AdaptationWire(a) && At(b, o, EncodeAdaptation(a))
    ensures o + |EncodeAdaptation(a)| <= |b| && AdaptationAt(b, o, |EncodeAdaptation(a)|) == a
  {
    if a.Some? {
      var x := a.value;
      var kind: bytes := [(x.adaptationType % 0x100) as byte];
      AtSplit(b, o, kind, x.adaptationData);
      assert b[o] == kind[0];
      AtSlice(b, o + 1, x.adaptationData);
    }
  }

  /** A download data header written before its message is read back as that header and message. */
  lemma {:induction false} DSMCCHeaderRoundTrip(b: bytes, o: nat, h: DSMCCDownloadDataHeader, message: bytes)
    requires DSMCCHeaderWire(h) && |EncodeAdaptation(h.adaptation)| + |message| < 0x1_0000
    requires At(b, o, EncodeDSMCC(h, message))
    ensures DSMCCHeaderAt(b, o) == Ok(DSMCCMessage(h, message))
  {
    var a := EncodeAdaptation(h.adaptation);
    AtSplit(b, o, DSMCCFixed(h, |message|) + a, message);
    AtSplit(b, o, DSMCCFixed(h, |message|), a);
    DSMCCFixedFound(b, o, h, |message|);
    AdaptationFound(b, o + 12, h.adaptation);
    AtSlice(b, o + 12 + |a|, message);
  }

  // ---------------------------------------------------------------------
  // The five bytes every DSM-CC section starts with

  /** The table id extension and the section header. */
  function SectionPrefix(tableIdExtension: nat, header: SectionHeader): (r: bytes)
    ensures |r| == 5
  {
    Word(tableIdExtension) + EncodeSectionHeader(header)
  }

  /** A section prefix followed by a download data header and its message, then anything. */
  lemma {:induction false} DSMCCSectionFound(tableIdExtension: nat, header: SectionHeader, h: DSMCCDownloadDataHeader,
                                             message: bytes, t: bytes)
    requires tableIdExtension < 0x1_0000 && WellFormedHeader(header)
    requires DSMCCHeaderWire(h) && |EncodeAdaptation(h.adaptation)| + |message| < 0x1_0000
    ensures var d := SectionPrefix(tableIdExtension, header) + EncodeDSMCC(h, message) + t;
      5 <= |d| && U16(d, 0) == tableIdExtension && SectionHeaderAt(d, 2) == header
      && DSMCCHeaderAt(d, 5) == Ok(DSMCCMessage(h, message))
  {
    var prefix, body := SectionPrefix(tableIdExtension, header), EncodeDSMCC(h, message);
    var d := prefix + body + t;
    assert d == prefix + (body + t);
    AtPrefix(prefix, body + t);
    AtSplit(d, 0, Word(tableIdExtension), EncodeSectionHeader(header));
    WordFound(d, 0, tableIdExtension);
    SectionHeaderRoundTrip(d, 2, header);
    AtMiddle(prefix, body, t);
    DSMCCHeaderRoundTrip(d, 5, h, message);
  }

  // ---------------------------------------------------------------------
  // DDB

  /** A DDB whose fields fit their bytes and whose message a 16-bit length counts. */
  predicate DDBWire(s: Section)
  {
    s.DDB? && s.tableIdExtension < 0x1_0000 && WellFormedHeader(s.header) && DSMCCHeaderWire(s.dsmccDownloadDataHeader)
    && s.moduleId < 0x1_0000 && s.moduleVersion < 0x100 && s.blockNumber < 0x1_0000
    && |EncodeAdaptation(s.dsmccDownloadDataHeader.adaptation)| + 6 + |s.blockData| < 0x1_0000
  }

  /** The DDB message: module id, module version, a reserved byte, block number, then the block data. */
  function DDBMessage(s: Section): (r: bytes)
    requires s.DDB?
    ensures |r| == 6 + |s.blockData|
  {
    Word(s.moduleId) + [(s.moduleVersion % 0x100) as byte, 0] + Word(s.blockNumber) + s.blockData
  }

  /** A DDB section payload. */
  function EncodeDDB(s: Section): (r: bytes)
    requires s.DDB?
  {
    SectionPrefix(s.tableIdExtension, s.header) + EncodeDSMCC(s.dsmccDownloadDataHeader, DDBMessage(s))
  }

  /** A DDB written field by field is read back as that DDB, whatever follows its message. */
  lemma {:induction false} DDBRoundTrip(s: Section, t: bytes)
    requires DDBWire(s)
    ensures DDBOf(EncodeDDB(s) + t) == Ok(s)
  {
    var m := DDBMessage(s);
    DSMCCSectionFound(s.tableIdExtension, s.header, s.dsmccDownloadDataHeader, m, t);
    assert m[0] == Word(s.moduleId)[0] && m[1] == Word(s.moduleId)[1] && m[2] == s.moduleVersion;
    assert m[4] == Word(s.blockNumber)[0] && m[5] == Word(s.blockNumber)[1] && m[6..] == s.blockData;
    WordAt(m, 0, s.moduleId);
    WordAt(m, 4, s.blockNumber);
  }

  // ---------------------------------------------------------------------
  // DII

  /** A module whose fields fit their bytes and whose info a one-byte length counts. */
  predicate ModuleWire(x: DSMCCModule)
  {
    x.moduleId < 0x1_0000 && x.moduleSize < 0x1_0000_0000 && x.moduleVersion < 0x100 && |x.moduleInfo| < 0x100
  }

  /** One module of the DII loop on the wire. */
  function EncodeModule(x: DSMCCModule): (r: bytes)
    ensures |r| == 8 + |x.moduleInfo|
  {
    Word(x.moduleId) + Word32(x.moduleSize) + [(x.moduleVersion % 0x100) as byte, (|x.moduleInfo| % 0x100) as byte]
    + x.moduleInfo
  }

  /** An encoded module found at o is read back, and the loop goes on after it. */
  lemma {:induction false} ModuleRoundTrip(m: bytes, o: nat, x: DSMCCModule)
    requires ModuleWire(x) && At(m, o, EncodeModule(x))
    ensures ModuleAt(m, o) == Some(Field(x, o + 8 + |x.moduleInfo|))
  {
    var tail: bytes := [(x.moduleVersion % 0x100) as byte, (|x.moduleInfo| % 0x100) as byte];
    AtSplit(m, o, Word(x.moduleId) + Word32(x.moduleSize) + tail, x.moduleInfo);
    AtSplit(m, o, Word(x.moduleId) + Word32(x.moduleSize), tail);
    AtSplit(m, o, Word(x.moduleId), Word32(x.moduleSize));
    WordFound(m, o, x.moduleId);
    Word32At(m, o + 2, x.moduleSize);
    assert m[o + 6] == tail[0] && m[o + 7] == tail[1];
    AtSlice(m, o + 8, x.moduleInfo);
  }

  /** The item step reads each record of ws wherever that record is found, as its value, and goes on after it. */
  ghost predicate Yields<W(!new), T>(b: bytes, item: (bytes, nat) -> Option<Field<T>>, enc: W -> bytes, val: W -> T, ws: seq<W>)
  {
    forall w, p: nat {:trigger At(b, p, enc(w))} :: w in ws && At(b, p, enc(w)) ==> item(b, p) == Some(Field(val(w), p + |enc(w)|))
  }

  /** A counted loop over a run of records its step reads reads their values and stops right after them. */
  lemma {:induction false} CountedLaid<W(!new), T>(b: bytes, item: (bytes, nat) -> Option<Field<T>>, enc: W -> bytes,
                                                   val: W -> T, ws: seq<W>, o: nat)
    requires At(b, o, Laid(enc, ws)) && Yields(b, item, enc, val, ws)
    ensures Counted(item, b, o, |ws|) == Some(Field(Values(val, ws), o + |Laid(enc, ws)|))
    decreases |ws|
  {
    if ws != [] {
      var w, tail := ws[0], ws[1..];
      AtSplit(b, o, enc(w), Laid(enc, tail));
      assert w in ws;
      assert item(b, o) == Some(Field(val(w), o + |enc(w)|));
      assert forall v :: v in tail ==> v in ws;
      CountedLaid(b, item, enc, val, tail, o + |enc(w)|);
      assert |Laid(enc, ws)| == |enc(w)| + |Laid(enc, tail)|;
    }
  }

  /** A module stands for itself. */
  function Itself(x: DSMCCModule): DSMCCModule
  {
    x
  }

  /** Every encoded module of xs is read wherever it is found. */
  lemma {:induction false} ModulesRead(m: bytes, xs: seq<DSMCCModule>)
    requires forall x :: x in xs ==> ModuleWire(x)
    ensures Yields(m, ModuleAt, EncodeModule, Itself, xs)
  {
    forall x, p: nat | x in xs && At(m, p, EncodeModule(x))
      ensures ModuleAt(m, p) == Some(Field(Itself(x), p + |EncodeModule(x)|))
    {
      ModuleRoundTrip(m, p, x);
    }
  }

  /** The counted module loop reads a run of encoded modules and stops right after them. */
  lemma {:induction false} ModulesRoundTrip(m: bytes, o: nat, xs: seq<DSMCCModule>)
    requires forall x :: x in xs ==> ModuleWire(x)
    requires At(m, o, Laid(EncodeModule, xs))
    ensures Counted(ModuleAt, m, o, |xs|) == Some(Field(xs, o + |Laid(EncodeModule, xs)|))
  {
    ModulesRead(m, xs);
    CountedLaid(m, ModuleAt, EncodeModule, Itself, xs, o);
    assert Values(Itself, xs) == xs;
  }

  /** The module list on the wire: its count, the modules, then the private data with its length. */
  ghost function EncodeModuleList(xs: seq<DSMCCModule>, privateData: bytes): (r: bytes)
    ensures |r| == 4 + |Laid(EncodeModule, xs)| + |privateData|
  {
    Word(|xs|) + Laid(EncodeModule, xs) + Word(|privateData|) + privateData
  }

  /** A module list written at p is read back as those modules and that private data. */
  lemma {:induction false} ModuleListRoundTrip(m: bytes, p: nat, xs: seq<DSMCCModule>, privateData: bytes)
    requires |xs| < 0x1_0000 && (forall x :: x in xs ==> ModuleWire(x)) && |privateData| < 0x1_0000
    requires At(m, p, EncodeModuleList(xs, privateData))
    ensures ModuleListAt(m, p) == Some(ModuleList(xs, privateData))
  {
    var l := Laid(EncodeModule, xs);
    var q := p + 2 + |l|;
    AtSplit(m, p, Word(|xs|) + l + Word(|privateData|), privateData);
    AtSplit(m, p, Word(|xs|) + l, Word(|privateData|));
    AtSplit(m, p, Word(|xs|), l);
    WordFound(m, p, |xs|);
    ModulesRoundTrip(m, p + 2, xs);
    WordFound(m, q, |privateData|);
    AtSlice(m, q + 2, privateData);
    assert PrivateDataAt(m, q) == Some(privateData);
  }

  /** A DII whose fields fit their bytes, with a compatibility descriptor and a message 16-bit lengths count. */
  ghost predicate DIIWire(s: Section, compatibility: bytes)
  {
    s.DII? && s.tableIdExtension < 0x1_0000 && WellFormedHeader(s.header) && DSMCCHeaderWire(s.dsmccDownloadDataHeader)
    && s.downloadId < 0x1_0000_0000 && s.blockSize < 0x1_0000 && s.windowSize < 0x100 && s.ackPeriod < 0x100
    && s.tCDownloadWindow < 0x1_0000_0000 && s.tCDownloadScenario < 0x1_0000_0000 && |compatibility| < 0x1_0000
    && |s.modules| < 0x1_0000 && (forall x :: x in s.modules ==> ModuleWire(x)) && |s.privateData| < 0x1_0000
    && |EncodeAdaptation(s.dsmccDownloadDataHeader.adaptation)| + |DIIMessage(s, compatibility)| < 0x1_0000
  }

  /** The first eight bytes of a DII message: download id, block size, window size and ack period. */
  function DIIHead(s: Section): (r: bytes)
    requires s.DII?
    ensures |r| == 8
  {
    Word32(s.downloadId) + Word(s.blockSize) + [(s.windowSize % 0x100) as byte, (s.ackPeriod % 0x100) as byte]
  }

  /**
   * The eighteen fixed bytes of a DII message: its first eight, the two
   * download times and the length of the compatibility descriptor.
   */
  function DIIFixed(s: Section, compatibilityLength: nat): (r: bytes)
    requires s.DII?
    ensures |r| == 18
  {
    DIIHead(s) + Word32(s.tCDownloadWindow) + Word32(s.tCDownloadScenario) + Word(compatibilityLength)
  }

  /** The DII message: its fixed bytes, the compatibility descriptor, then the module list. */
  ghost function DIIMessage(s: Section, compatibility: bytes): (r: bytes)
    requires s.DII?
  {
    DIIFixed(s, |compatibility|) + compatibility + EncodeModuleList(s.modules, s.privateData)
  }

  /** A DII section payload. */
  ghost function EncodeDII(s: Section, compatibility: bytes): (r: bytes)
    requires s.DII?
  {
    SectionPrefix(s.tableIdExtension, s.header) + EncodeDSMCC(s.dsmccDownloadDataHeader, DIIMessage(s, compatibility))
  }

  /** The fields of the first eight bytes of a DII message found at the start of m. */
  lemma {:induction false} DIIHeadFound(m: bytes, s: Section)
    requires s.DII? && s.downloadId < 0x1_0000_0000 && s.blockSize < 0x1_0000 && s.windowSize < 0x100 && s.ackPeriod < 0x100
    requires At(m, 0, DIIHead(s))
    ensures 8 <= |m| && U32(m, 0) == s.downloadId && U16(m, 4) == s.blockSize && m[6] == s.windowSize && m[7] == s.ackPeriod
  {
    var sizes: bytes := [(s.windowSize % 0x100) as byte, (s.ackPeriod % 0x100) as byte];
    AtSplit(m, 0, Word32(s.downloadId) + Word(s.blockSize), sizes);
    AtSplit(m, 0, Word32(s.downloadId), Word(s.blockSize));
    Word32At(m, 0, s.downloadId);
    WordFound(m, 4, s.blockSize);
    assert m[6] == sizes[0] && m[7] == sizes[1];
  }

  /** The fields of the eighteen fixed bytes at the start of m. */
  lemma {:induction false} DIIFixedFound(m: bytes, s: Section, n: nat)
    requires s.DII? && s.downloadId < 0x1_0000_0000 && s.blockSize < 0x1_0000 && s.windowSize < 0x100 && s.ackPeriod < 0x100
    requires s.tCDownloadWindow < 0x1_0000_0000 && s.tCDownloadScenario < 0x1_0000_0000 && n < 0x1_0000
    requires At(m, 0, DIIFixed(s, n))
    ensures 18 <= |m| && U32(m, 0) == s.downloadId && U16(m, 4) == s.blockSize && m[6] == s.windowSize
    ensures m[7] == s.ackPeriod && U32(m, 8) == s.tCDownloadWindow && U32(m, 12) == s.tCDownloadScenario && U16(m, 16) == n
  {
    var head := DIIHead(s);
    AtSplit(m, 0, head + Word32(s.tCDownloadWindow) + Word32(s.tCDownloadScenario), Word(n));
    AtSplit(m, 0, head + Word32(s.tCDownloadWindow), Word32(s.tCDownloadScenario));
    AtSplit(m, 0, head, Word32(s.tCDownloadWindow));
    DIIHeadFound(m, s);
    Word32At(m, 8, s.tCDownloadWindow);
    Word32At(m, 12, s.tCDownloadScenario);
    WordFound(m, 16, n);
  }

  /** A DII message written field by field is read back as that DII. */
  lemma {:induction false} DIIMessageRoundTrip(s: Section, compatibility: bytes)
    requires DIIWire(s, compatibility)
    ensures DIIMessageOf(s.tableIdExtension, s.header, s.dsmccDownloadDataHeader, DIIMessage(s, compatibility)) == Some(s)
  {
    var m := DIIMessage(s, compatibility);
    var fixed, list := DIIFixed(s, |compatibility|), EncodeModuleList(s.modules, s.privateData);
    AtPrefix(fixed, compatibility + list);
    assert m == fixed + (compatibility + list);
    DIIFixedFound(m, s, |compatibility|);
    AtSplit(m, 18, compatibility, list);
    AtMiddle(fixed + compatibility, list, []);
    assert m + [] == fixed + compatibility + list;
    ModuleListRoundTrip(m, 18 + |compatibility|, s.modules, s.privateData);
  }

  /** A DII written field by field is read back as that DII, whatever follows its message. */
  lemma {:induction false} DIIRoundTrip(s: Section, compatibility: bytes, t: bytes)
    requires DIIWire(s, compatibility)
    ensures DIIOf(EncodeDII(s, compatibility) + t) == Ok(s)
  {
    var m := DIIMessage(s, compatibility);
    DSMCCSectionFound(s.tableIdExtension, s.header, s.dsmccDownloadDataHeader, m, t);
    DIIMessageRoundTrip(s, compatibility);
  }
}
