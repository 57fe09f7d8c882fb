// The long-form section header that every MMT-SI, TLV-SI and MPEG-2 PSI
// table reader decodes after its table-specific id field: a byte with the
// 5-bit version number and the current/next indicator, then the section
// number and the last section number.
module Sections {
  import opened Js
  import opened Utils

  datatype SectionHeader = SectionHeader(
    versionNumber: nat,
    currentNextIndicator: bool,
    sectionNumber: nat,
    lastSectionNumber: nat)

  /** `(b2 >> 1) & 0x1f`, `!!(b2 & 1)` and the two section numbers, read at o. */
  function SectionHeaderAt(d: bytes, o: nat): (h: SectionHeader)
    requires o + 3 <= |d|
    ensures h.versionNumber < 32 && h.sectionNumber < 256 && h.lastSectionNumber < 256
    ensures d[o] == h.versionNumber * 2 + (if h.currentNextIndicator then 1 else 0) + (d[o] / 0x40) * 0x40
    ensures h.sectionNumber == d[o + 1] && h.lastSectionNumber == d[o + 2]
  {
    SectionHeader(d[o] / 2 % 32, d[o] % 2 == 1, d[o + 1], d[o + 2])
  }

  /** A header whose fields fit their widths. */
  predicate WellFormedHeader(h: SectionHeader)
  {
    h.versionNumber < 32 && h.sectionNumber < 0x100 && h.lastSectionNumber < 0x100
  }

  /** The three header bytes, with the two reserved bits above the version number clear. */
  function EncodeSectionHeader(h: SectionHeader): (r: bytes)
    ensures |r| == 3
  {
    [(h.versionNumber % 32 * 2 + if h.currentNextIndicator then 1 else 0) as byte,
     (h.sectionNumber % 0x100) as byte,
     (h.lastSectionNumber % 0x100) as byte]
  }

  /** An encoded header found at o reads back. */
  lemma {:induction false} SectionHeaderRoundTrip(b: bytes, o: nat, h: SectionHeader)
    requires WellFormedHeader(h) && At(b, o, EncodeSectionHeader(h))
    ensures o + 3 <= |b| && SectionHeaderAt(b, o) == h
  {
    var e := EncodeSectionHeader(h);
    assert b[o] == e[0] && b[o + 1] == e[1] && b[o + 2] == e[2];
    var c := if h.currentNextIndicator then 1 else 0;
    DivExact(h.versionNumber, c, 2);
  }

  method ReadSectionHeader(reader: BinaryReader) returns (h: SectionHeader)
    requires reader.InView(3)
    modifies reader
    ensures reader.offset == old(reader.offset) + 3
    ensures h == SectionHeaderAt(reader.buffer, old(reader.offset))
  {
    var b2 := reader.ReadUint8();
    var versionNumber := b2 / 2 % 32;
    var currentNextIndicator := b2 % 2 == 1;
    var sectionNumber := reader.ReadUint8();
    var lastSectionNumber := reader.ReadUint8();
    h := SectionHeader(versionNumber, currentNextIndicator, sectionNumber, lastSectionNumber);
  }

  /** A flag as the bit that carries it. */
  function Bit(x: bool): (r: nat)
    ensures r < 2 && (r == 1 <==> x)
  {
    if x then 1 else 0
  }

  /** A status word: 3 bits of running status, the free CA mode bit and a 12-bit length. */
  function StatusWord(runningStatus: nat, freeCAMode: bool, length: nat): (r: nat)
  {
    runningStatus * 0x2000 + Bit(freeCAMode) * 0x1000 + length
  }

  /** The three fields come back out of a status word. */
  lemma {:induction false} StatusWordRead(runningStatus: nat, freeCAMode: bool, length: nat)
    requires runningStatus < 8 && length < 0x1000
    ensures var w := StatusWord(runningStatus, freeCAMode, length);
      w < 0x1_0000 && w / 0x2000 == runningStatus && (w / 0x1000 % 2 == 1 <==> freeCAMode) && w % 0x1000 == length
  {
  }
}
