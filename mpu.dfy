// `readMPU` (src/mpu.ts): an MMTP payload of type MPU, holding either one
// media fragment unit or a run of length-prefixed aggregated units.
module Mpu {
  import opened Js
  import opened Decoding
  import opened Utils

  datatype TimedMFU = TimedMFU(
    movieFragmentSequenceNumber: nat,
    sampleNumber: nat,
    offset: nat,
    priority: nat,
    dependencyCounter: nat,
    mfuData: bytes)

  datatype NonTimedMFU = NonTimedMFU(itemId: nat, mfuData: bytes)

  /** The units of an MPU: timed media samples or non-timed items. */
  datatype MFUList = Timed(units: seq<TimedMFU>) | NonTimed(items: seq<NonTimedMFU>)

  /** A decoded MPU; its timed flag is whether the list is `Timed`. */
  datatype MediaProcessingUnit = MediaProcessingUnit(
    fragmentationIndicator: nat,
    aggregationFlag: bool,
    fragmentCounter: nat,
    mpuSequenceNumber: nat,
    mfuList: MFUList)

  /** The 14-byte timed unit header at o, followed by its data. */
  function TimedMFUAt(b: bytes, o: int, data: bytes): TimedMFU
    requires InView(b, o, 14)
  {
    TimedMFU(U32(b, o), U32(b, o + 4), U32(b, o + 8), b[o + 12], b[o + 13], data)
  }

  /**
   * The aggregated timed units from o on: each is a 16-bit length and that
   * many bytes, of which 14 are the unit header.  The walk stops at a length
   * that overruns the buffer or is below 14.
   */
  function TimedUnits(b: bytes, o: int): (r: seq<TimedMFU>)
    requires o >= 0
    decreases |b| - o, 1
  {
    if |b| < 2 + o then [] else TimedUnitsAt(b, o)
  }

  /** The units from o on, once their first length fits. */
  function TimedUnitsAt(b: bytes, o: int): (r: seq<TimedMFU>)
    requires o >= 0 && 2 + o <= |b|
    decreases |b| - o, 0
  {
    var len := U16(b, o);
    var p := o + 2;
    if |b| < len + p || len < 14 then []
    else [TimedMFUAt(b, p, b[p + 14..p + len])] + TimedUnits(b, p + len)
  }

  /** The aggregated non-timed items from o on: a length, a 4-byte id, the data. */
  function NonTimedItems(b: bytes, o: int): (r: seq<NonTimedMFU>)
    requires o >= 0
    decreases |b| - o, 1
  {
    if |b| < 2 + o then [] else NonTimedItemsAt(b, o)
  }

  /** The items from o on, once their first length fits. */
  function NonTimedItemsAt(b: bytes, o: int): (r: seq<NonTimedMFU>)
    requires o >= 0 && 2 + o <= |b|
    decreases |b| - o, 0
  {
    var len := U16(b, o);
    var p := o + 2;
    if |b| < len + p || len < 4 then []
    else [NonTimedMFU(U32(b, p), b[p + 4..p + len])] + NonTimedItems(b, p + len)
  }

  /**
   * The unit list that follows the 6-byte MPU header, or None when a single
   * unit's header does not fit.
   */
  function MFUListOf(b: bytes, timed: bool, aggregated: bool): (r: Option<MFUList>)
    requires |b| >= 6
    ensures r.Some? ==> r.value.Timed? == timed
    ensures r.None? <==> !aggregated && |b| < if timed then 20 else 10
    ensures r.Some? && timed && !aggregated ==> r.value.units == [TimedMFUAt(b, 6, b[20..])]
    ensures r.Some? && !timed && !aggregated ==> r.value.items == [NonTimedMFU(U32(b, 6), b[10..])]
    ensures aggregated ==> r == Some(if timed then Timed(TimedUnits(b, 6)) else NonTimed(NonTimedItems(b, 6)))
  {
    if timed then
      if aggregated then Some(Timed(TimedUnits(b, 6)))
      else if |b| < 6 + 14 then None
      else
        assert Js.Slice(b, 20, |b|) == b[20..];
        Some(Timed([TimedMFUAt(b, 6, Js.Slice(b, 20, |b|))]))
    else
      if aggregated then Some(NonTimed(NonTimedItems(b, 6)))
      else if |b| < 6 + 4 then None
      else
        assert Js.Slice(b, 10, |b|) == b[10..];
        Some(NonTimed([NonTimedMFU(U32(b, 6), Js.Slice(b, 10, |b|))]))
  }

  /** What readMPU returns for a payload. */
  function MPUOf(b: bytes): (r: Option<MediaProcessingUnit>)
    ensures r.Some? <==> |b| >= 6 && b[0] / 0x10 == 2 && MFUListOf(b, b[0] / 8 % 2 == 1, b[0] % 2 == 1).Some?
    ensures r.Some? ==> r.value.mfuList.Timed? == (b[0] / 8 % 2 == 1)
                        && r.value.aggregationFlag == (b[0] % 2 == 1)
                        && r.value.fragmentCounter == b[1] && r.value.mpuSequenceNumber == U32(b, 2)
  {
    if |b| < 1 + 1 + 4 then None
    else
      var h := b[0];
      var list := MFUListOf(b, h / 8 % 2 == 1, h % 2 == 1);
      if h / 0x10 != 2 || list.None? then None
      else Some(MediaProcessingUnit(h / 2 % 4, h % 2 == 1, b[1], U32(b, 2), list.value))
  }

  method ReadMPU(buffer: bytes) returns (r: Option<MediaProcessingUnit>)
    ensures r == MPUOf(buffer)
  {
    var reader := new BinaryReader(buffer, 0);
    if !reader.CanRead(1 + 1 + 4) {
      return None;
    }
    var h := reader.ReadUint8();
    var fragmentType := h / 0x10;
    var timedFlag := h / 8 % 2 == 1;
    var fragmentationIndicator := h / 2 % 4;
    var aggregationFlag := h % 2 == 1;
    var fragmentCounter := reader.ReadUint8();
    var mpuSequenceNumber := reader.ReadUint32();
    if fragmentType != 2 {
      return None;
    }
    var mfuList := ReadMFUList(reader, timedFlag, aggregationFlag);
    if mfuList.None? {
      return None;
    }
    r := Some(MediaProcessingUnit(fragmentationIndicator, aggregationFlag, fragmentCounter, mpuSequenceNumber, mfuList.value));
  }

  /** The part of readMPU after the header; None where readMPU returns early. */
  method ReadMFUList(reader: BinaryReader, timed: bool, aggregated: bool) returns (r: Option<MFUList>)
    requires reader.offset == 6 && |reader.buffer| >= 6
    modifies reader
    ensures r == MFUListOf(reader.buffer, timed, aggregated)
  {
    var buffer := reader.buffer;
    if timed {
      var units: seq<TimedMFU>;
      if !aggregated {
        if !reader.CanRead(4 + 4 + 4 + 1 + 1) {
          return None;
        }
        var movieFragmentSequenceNumber := reader.ReadUint32();
        var sampleNumber := reader.ReadUint32();
        var offset := reader.ReadUint32();
        var priority := reader.ReadUint8();
        var dependencyCounter := reader.ReadUint8();
        var at := reader.Tell();
        var mfuData := Js.Slice(buffer, at, |buffer|);
        units := [TimedMFU(movieFragmentSequenceNumber, sampleNumber, offset, priority, dependencyCounter, mfuData)];
      } else {
        units := ReadTimedUnits(reader);
      }
      r := Some(Timed(units));
    } else {
      var items: seq<NonTimedMFU>;
      if !aggregated {
        if !reader.CanRead(4) {
          return None;
        }
        var itemId := reader.ReadUint32();
        var at := reader.Tell();
        var mfuData := Js.Slice(buffer, at, |buffer|);
        items := [NonTimedMFU(itemId, mfuData)];
      } else {
        items := ReadNonTimedItems(reader);
      }
      r := Some(NonTimed(items));
    }
  }

  /** readMPU's loop over aggregated timed units. */
  method ReadTimedUnits(reader: BinaryReader) returns (units: seq<TimedMFU>)
    requires reader.offset >= 0
    modifies reader
    ensures units == TimedUnits(reader.buffer, old(reader.offset))
  {
    ghost var whole := TimedUnitsLeft(reader.buffer, reader.offset);
    units := [];
    while reader.CanRead(2)
      invariant reader.offset >= 0
      invariant units + TimedUnitsLeft(reader.buffer, reader.offset) == whole
      decreases |reader.buffer| - reader.offset
    {
      ghost var start := reader.offset;
      var unit := ReadNextTimedMFU(reader);
      if unit.None? {
        assert units + TimedUnitsLeft(reader.buffer, start) == units;
        break;
      }
      ListStep(units, unit.value, TimedUnitsLeft(reader.buffer, reader.offset));
      units := units + [unit.value];
    }
  }

  /** The timed units still to read from the cursor o. */
  function TimedUnitsLeft(b: bytes, o: int): seq<TimedMFU>
  {
    if o >= 0 then TimedUnits(b, o) else []
  }

  /** One pass of the loop: a unit and the rest of the list after it, or the end of the list. */
  method ReadNextTimedMFU(reader: BinaryReader) returns (unit: Option<TimedMFU>)
    requires reader.offset >= 0 && reader.CanRead(2)
    modifies reader
    ensures reader.offset > old(reader.offset)
    ensures unit.None? ==> TimedUnits(reader.buffer, old(reader.offset)) == []
    ensures unit.Some? ==>
      TimedUnits(reader.buffer, old(reader.offset)) == [unit.value] + TimedUnits(reader.buffer, reader.offset)
  {
    var dataUnitLength := reader.ReadUint16();
    if !reader.CanRead(dataUnitLength) || dataUnitLength < 4 + 4 + 4 + 1 + 1 {
      return None;
    }
    var u := ReadTimedMFU(reader, dataUnitLength);
    unit := Some(u);
  }

  /** One aggregated timed unit after its length: the 14-byte header and the data. */
  method ReadTimedMFU(reader: BinaryReader, dataUnitLength: nat) returns (unit: TimedMFU)
    requires reader.offset >= 0 && dataUnitLength >= 14 && reader.CanRead(dataUnitLength)
    modifies reader
    ensures reader.offset == old(reader.offset) + dataUnitLength
    ensures unit == TimedMFUAt(reader.buffer, old(reader.offset),
                               reader.buffer[old(reader.offset) + 14..old(reader.offset) + dataUnitLength])
  {
    var movieFragmentSequenceNumber := reader.ReadUint32();
    var sampleNumber := reader.ReadUint32();
    var offset := reader.ReadUint32();
    var priority := reader.ReadUint8();
    var dependencyCounter := reader.ReadUint8();
    var mfuData := reader.Subarray(dataUnitLength - 4 - 4 - 4 - 1 - 1);
    unit := TimedMFU(movieFragmentSequenceNumber, sampleNumber, offset, priority, dependencyCounter, mfuData);
  }

  /** readMPU's loop over aggregated non-timed items. */
  method ReadNonTimedItems(reader: BinaryReader) returns (items: seq<NonTimedMFU>)
    requires reader.offset >= 0
    modifies reader
    ensures items == NonTimedItems(reader.buffer, old(reader.offset))
  {
    ghost var whole := NonTimedItemsLeft(reader.buffer, reader.offset);
    items := [];
    while reader.CanRead(2)
      invariant reader.offset >= 0
      invariant items + NonTimedItemsLeft(reader.buffer, reader.offset) == whole
      decreases |reader.buffer| - reader.offset
    {
      ghost var start := reader.offset;
      var item := ReadNextNonTimedMFU(reader);
      if item.None? {
        assert items + NonTimedItemsLeft(reader.buffer, start) == items;
        break;
      }
      ListStep(items, item.value, NonTimedItemsLeft(reader.buffer, reader.offset));
      items := items + [item.value];
    }
  }

  /** The non-timed items still to read from the cursor o. */
  function NonTimedItemsLeft(b: bytes, o: int): seq<NonTimedMFU>
  {
    if o >= 0 then NonTimedItems(b, o) else []
  }

  /** One pass of the loop: an item and the rest of the list after it, or the end of the list. */
  method ReadNextNonTimedMFU(reader: BinaryReader) returns (item: Option<NonTimedMFU>)
    requires reader.offset >= 0 && reader.CanRead(2)
    modifies reader
    ensures reader.offset > old(reader.offset)
    ensures item.None? ==> NonTimedItems(reader.buffer, old(reader.offset)) == []
    ensures item.Some? ==>
      NonTimedItems(reader.buffer, old(reader.offset)) == [item.value] + NonTimedItems(reader.buffer, reader.offset)
  {
    var dataUnitLength := reader.ReadUint16();
    if !reader.CanRead(dataUnitLength) || dataUnitLength < 4 {
      return None;
    }
    var x := ReadNonTimedMFU(reader, dataUnitLength);
    item := Some(x);
  }

  /** One aggregated non-timed item after its length: the item id and the data. */
  method ReadNonTimedMFU(reader: BinaryReader, dataUnitLength: nat) returns (item: NonTimedMFU)
    requires reader.offset >= 0 && dataUnitLength >= 4 && reader.CanRead(dataUnitLength)
    modifies reader
    ensures reader.offset == old(reader.offset) + dataUnitLength
    ensures item == NonTimedMFU(U32(reader.buffer, old(reader.offset)),
                                reader.buffer[old(reader.offset) + 4..old(reader.offset) + dataUnitLength])
  {
    var itemId := reader.ReadUint32();
    var mfuData := reader.Subarray(dataUnitLength - 4);
    item := NonTimedMFU(itemId, mfuData);
  }

  predicate WellFormedTimed(u: TimedMFU)
  {
    u.movieFragmentSequenceNumber < 0x1_0000_0000 && u.sampleNumber < 0x1_0000_0000
    && u.offset < 0x1_0000_0000 && u.priority < 0x100 && u.dependencyCounter < 0x100
    && |u.mfuData| + 14 < 0x1_0000
  }

  /** One aggregated timed unit on the wire: its length, header and data. */
  ghost function EncodeTimedMFU(u: TimedMFU): (r: bytes)
    requires WellFormedTimed(u)
    ensures |r| == |u.mfuData| + 16
  {
    Be16(|u.mfuData| + 14) + Be32(u.movieFragmentSequenceNumber) + Be32(u.sampleNumber)
    + Be32(u.offset) + [u.priority as byte, u.dependencyCounter as byte] + u.mfuData
  }

  ghost function EncodeTimedUnits(us: seq<TimedMFU>): bytes
    requires forall i :: 0 <= i < |us| ==> WellFormedTimed(us[i])
  {
    if us == [] then [] else EncodeTimedMFU(us[0]) + EncodeTimedUnits(us[1..])
  }

  /** The header fields of an encoded unit read back at its position. */
  lemma {:induction false} TimedMFUReadBack(prefix: bytes, u: TimedMFU, suffix: bytes)
    requires WellFormedTimed(u)
    ensures var b := prefix + EncodeTimedMFU(u) + suffix;
      var o := |prefix|;
      U16(b, o) == |u.mfuData| + 14
      && o + 2 + U16(b, o) <= |b|
      && TimedMFUAt(b, o + 2, b[o + 2 + 14..o + 2 + U16(b, o)]) == u
  {
    var b := prefix + EncodeTimedMFU(u) + suffix;
    var o := |prefix|;
    var l := Be16(|u.mfuData| + 14);
    var w0 := Be32(u.movieFragmentSequenceNumber);
    var w1 := Be32(u.sampleNumber);
    var w2 := Be32(u.offset);
    var tail := [u.priority as byte, u.dependencyCounter as byte] + u.mfuData + suffix;
    assert b == prefix + l + (w0 + w1 + w2 + tail);
    U16Shift(prefix, l, w0 + w1 + w2 + tail);
    assert b == prefix + l + w0 + (w1 + w2 + tail);
    U32Shift(prefix + l, w0, w1 + w2 + tail);
    assert b == prefix + l + w0 + w1 + (w2 + tail);
    U32Shift(prefix + l + w0, w1, w2 + tail);
    assert b == prefix + l + w0 + w1 + w2 + tail;
    U32Shift(prefix + l + w0 + w1, w2, tail);
    assert b[o + 14] == u.priority && b[o + 15] == u.dependencyCounter;
    assert b[o + 16..o + 16 + |u.mfuData|] == u.mfuData;
  }

  /** An encoded unit found at o in any buffer reads back as that unit. */
  lemma {:induction false} TimedMFUWindow(b: bytes, o: nat, u: TimedMFU)
    requires WellFormedTimed(u)
    requires o + (|u.mfuData| + 16) <= |b| && b[o..o + (|u.mfuData| + 16)] == EncodeTimedMFU(u)
    ensures U16(b, o) == (|u.mfuData| + 16) - 2
    ensures TimedMFUAt(b, o + 2, b[o + 2 + 14..o + (|u.mfuData| + 16)]) == u
  {
    var e := EncodeTimedMFU(u);
    assert b == b[..o] + e + b[o + |e|..];
    TimedMFUReadBack(b[..o], u, b[o + |e|..]);
  }

  /** A unit whose n bytes start at o is read as that unit, and the walk resumes after it. */
  lemma {:induction false} TimedUnitsCons(b: bytes, o: nat, n: nat, u: TimedMFU, tail: seq<TimedMFU>)
    requires 16 <= n && o + n <= |b| && U16(b, o) == n - 2
    requires TimedMFUAt(b, o + 2, b[o + 2 + 14..o + n]) == u
    requires TimedUnits(b, o + n) == tail
    ensures TimedUnits(b, o) == [u] + tail
  {
  }

  /** Splits the wire form of a non-empty list into its first unit and the rest. */
  lemma {:induction false} TimedUnitsHead(b: bytes, o: nat, us: seq<TimedMFU>)
    requires forall i :: 0 <= i < |us| ==> WellFormedTimed(us[i])
    requires us != [] && o <= |b| && b[o..] == EncodeTimedUnits(us)
    ensures o + (|us[0].mfuData| + 16) <= |b|
    ensures b[o + (|us[0].mfuData| + 16)..] == EncodeTimedUnits(us[1..])
    ensures b[o..o + (|us[0].mfuData| + 16)] == EncodeTimedMFU(us[0])
  {
    var n := |us[0].mfuData| + 16;
    var rest := EncodeTimedUnits(us[1..]);
    assert b[o..] == EncodeTimedMFU(us[0]) + rest;
    assert b[o..o + n] == EncodeTimedMFU(us[0]) by { assert b[o..o + n] == b[o..][..n]; }
    assert b[o + n..] == rest by { assert b[o + n..] == b[o..][n..]; }
  }

  /** An encoded unit at o is read as that unit, and the walk resumes after it. */
  lemma {:induction false} TimedUnitsEncodedCons(b: bytes, o: nat, u: TimedMFU, tail: seq<TimedMFU>)
    requires WellFormedTimed(u) && o + (|u.mfuData| + 16) <= |b|
    requires b[o..o + (|u.mfuData| + 16)] == EncodeTimedMFU(u)
    requires TimedUnits(b, o + (|u.mfuData| + 16)) == tail
    ensures TimedUnits(b, o) == [u] + tail
  {
    TimedMFUWindow(b, o, u);
    TimedUnitsCons(b, o, |u.mfuData| + 16, u, tail);
  }

  /** The buffer holds, from o to its end, the wire form of the units. */
  ghost predicate TimedUnitsEncodedAt(b: bytes, o: nat, us: seq<TimedMFU>)
    decreases |us|
  {
    if us == [] then o == |b|
    else WellFormedTimed(us[0]) && o + (|us[0].mfuData| + 16) <= |b|
         && b[o..o + (|us[0].mfuData| + 16)] == EncodeTimedMFU(us[0])
         && TimedUnitsEncodedAt(b, o + (|us[0].mfuData| + 16), us[1..])
  }

  lemma {:induction false} TimedUnitsEncodedAtOf(b: bytes, o: nat, us: seq<TimedMFU>)
    requires forall i :: 0 <= i < |us| ==> WellFormedTimed(us[i])
    requires o <= |b| && b[o..] == EncodeTimedUnits(us)
    ensures TimedUnitsEncodedAt(b, o, us)
    decreases |us|
  {
    if us != [] {
      TimedUnitsHead(b, o, us);
      TimedUnitsEncodedAtOf(b, o + (|us[0].mfuData| + 16), us[1..]);
    }
  }

  /** The walk over an encoded list yields the list. */
  lemma {:induction false} TimedUnitsDecodeEncoded(b: bytes, o: nat, us: seq<TimedMFU>)
    requires TimedUnitsEncodedAt(b, o, us)
    ensures TimedUnits(b, o) == us
    decreases |us|
  {
    if us != [] {
      TimedUnitsDecodeEncoded(b, o + (|us[0].mfuData| + 16), us[1..]);
      TimedUnitsEncodedCons(b, o, us[0], us[1..]);
      assert us == [us[0]] + us[1..];
    }
  }

  /**
   * Aggregated timed units survive a round trip: a buffer that ends with the
   * wire form of some units yields exactly those units from where it starts.
   */
  lemma {:induction false} TimedUnitsRoundTrip(b: bytes, o: nat, us: seq<TimedMFU>)
    requires forall i :: 0 <= i < |us| ==> WellFormedTimed(us[i])
    requires o <= |b| && b[o..] == EncodeTimedUnits(us)
    ensures TimedUnits(b, o) == us
  {
    TimedUnitsEncodedAtOf(b, o, us);
    TimedUnitsDecodeEncoded(b, o, us);
  }

  predicate WellFormedNonTimed(m: NonTimedMFU)
  {
    m.itemId < 0x1_0000_0000 && |m.mfuData| + 4 < 0x1_0000
  }

  ghost function EncodeNonTimedMFU(m: NonTimedMFU): (r: bytes)
    requires WellFormedNonTimed(m)
    ensures |r| == |m.mfuData| + 6
  {
    Be16(|m.mfuData| + 4) + Be32(m.itemId) + m.mfuData
  }

  ghost function EncodeNonTimedItems(ms: seq<NonTimedMFU>): bytes
    requires forall i :: 0 <= i < |ms| ==> WellFormedNonTimed(ms[i])
  {
    if ms == [] then [] else EncodeNonTimedMFU(ms[0]) + EncodeNonTimedItems(ms[1..])
  }

  /** The id and data of an encoded item read back at its position. */
  lemma {:induction false} NonTimedMFUReadBack(prefix: bytes, m: NonTimedMFU, suffix: bytes)
    requires WellFormedNonTimed(m)
    ensures var b := prefix + EncodeNonTimedMFU(m) + suffix;
      var o := |prefix|;
      U16(b, o) == |m.mfuData| + 4
      && o + 2 + U16(b, o) <= |b|
      && NonTimedMFU(U32(b, o + 2), b[o + 2 + 4..o + 2 + U16(b, o)]) == m
  {
    var b := prefix + EncodeNonTimedMFU(m) + suffix;
    var l := Be16(|m.mfuData| + 4);
    var w := Be32(m.itemId);
    assert b == prefix + l + (w + m.mfuData + suffix);
    U16Shift(prefix, l, w + m.mfuData + suffix);
    assert b == prefix + l + w + (m.mfuData + suffix);
    U32Shift(prefix + l, w, m.mfuData + suffix);
    var o := |prefix|;
    assert b[o + 6..o + 6 + |m.mfuData|] == m.mfuData;
  }

  lemma {:induction false} NonTimedMFUWindow(b: bytes, o: nat, m: NonTimedMFU)
    requires WellFormedNonTimed(m)
    requires o + |EncodeNonTimedMFU(m)| <= |b| && b[o..o + |EncodeNonTimedMFU(m)|] == EncodeNonTimedMFU(m)
    ensures U16(b, o) == |EncodeNonTimedMFU(m)| - 2
    ensures NonTimedMFU(U32(b, o + 2), b[o + 2 + 4..o + |EncodeNonTimedMFU(m)|]) == m
  {
    var e := EncodeNonTimedMFU(m);
    assert b == b[..o] + e + b[o + |e|..];
    NonTimedMFUReadBack(b[..o], m, b[o + |e|..]);
  }

  /** Aggregated non-timed items survive a round trip through their wire form. */
  lemma {:induction false} NonTimedItemsRoundTrip(b: bytes, o: nat, ms: seq<NonTimedMFU>)
    requires forall i :: 0 <= i < |ms| ==> WellFormedNonTimed(ms[i])
    requires o <= |b| && b[o..] == EncodeNonTimedItems(ms)
    ensures NonTimedItems(b, o) == ms
    decreases |ms|
  {
    if ms != [] {
      var e := EncodeNonTimedMFU(ms[0]);
      var rest := EncodeNonTimedItems(ms[1..]);
      assert b[o..] == e + rest;
      assert b[o..o + |e|] == e by { assert b[o..o + |e|] == b[o..][..|e|]; }
      assert b[o + |e|..] == rest by { assert b[o + |e|..] == b[o..][|e|..]; }
      NonTimedMFUWindow(b, o, ms[0]);
      NonTimedItemsRoundTrip(b, o + |e|, ms[1..]);
      assert ms == [ms[0]] + ms[1..];
    }
  }
}
