// The byte cursor every decoder drives, buffer concatenation, and the
// arithmetic and text helpers of src/utils.ts.
module Utils {
  import opened Js

  /** An NTP 64-bit timestamp as the cursor reads it (src/ntp.ts). */
  datatype NTP64Timestamp = NTP64Timestamp(seconds: int, fractional: nat)

  /**
   * The timestamp `readNTP64Timestamp` returns for the eight bytes at o: the
   * seconds as read when bit 31 is set, else plus `1 << 32`, which is 1.
   */
  function NTP64At(b: bytes, o: int): (t: NTP64Timestamp)
    requires Js.InView(b, o, 8)
  {
    var seconds := U32(b, o);
    NTP64Timestamp(if seconds >= 0x8000_0000 then seconds else seconds + 1, U32(b, o + 4))
  }

  /**
   * A big-endian cursor over an immutable byte buffer.  The offset is an
   * unbounded integer: `skip`, `slice` and `subarray` move it by any amount,
   * past the end or backwards, and only the DataView reads demand that the
   * bytes they touch exist.
   */
  class BinaryReader {
    const buffer: bytes
    var offset: int

    constructor (buffer: bytes, offset: int)
      ensures this.buffer == buffer && this.offset == offset
    {
      this.buffer := buffer;
      this.offset := offset;
    }

    /** `canRead(n)`: at least n bytes lie between the offset and the end. */
    predicate CanRead(n: int)
      reads this
    {
      |buffer| >= n + offset
    }

    /** The bytes a DataView read of width n would touch all exist. */
    predicate InView(n: nat)
      reads this
    {
      Js.InView(buffer, offset, n)
    }

    method ReadUint8() returns (v: nat)
      requires InView(1)
      modifies this
      ensures offset == old(offset) + 1
      ensures v == U8(buffer, old(offset)) && v < 0x100
    {
      offset := offset + 1;
      v := buffer[offset - 1];
    }

    method ReadInt16() returns (v: int)
      requires InView(2)
      modifies this
      ensures offset == old(offset) + 2
      ensures v == I16(buffer, old(offset))
    {
      offset := offset + 2;
      v := I16(buffer, offset - 2);
    }

    method ReadUint16() returns (v: nat)
      requires InView(2)
      modifies this
      ensures offset == old(offset) + 2
      ensures v == U16(buffer, old(offset)) && v < 0x1_0000
    {
      offset := offset + 2;
      v := (buffer[offset - 2] as int) * 0x100 + buffer[offset - 1];
    }

    method ReadUint24() returns (v: nat)
      requires InView(3)
      modifies this
      ensures offset == old(offset) + 3
      ensures v == U24(buffer, old(offset)) && v < 0x100_0000
    {
      var h := U16(buffer, offset);
      var l := U8(buffer, offset + 2);
      offset := offset + 3;
      v := h * 0x100 + l;
    }

    method ReadUint32() returns (v: nat)
      requires InView(4)
      modifies this
      ensures offset == old(offset) + 4
      ensures v == U32(buffer, old(offset)) && v < 0x1_0000_0000
    {
      offset := offset + 4;
      v := U16(buffer, offset - 4) * 0x1_0000 + U16(buffer, offset - 2);
    }

    method ReadUint40() returns (v: nat)
      requires InView(5)
      modifies this
      ensures offset == old(offset) + 5
      ensures v == U40(buffer, old(offset)) && v < 0x1_0000_0000 * 0x100
    {
      var h := U32(buffer, offset);
      var l := U8(buffer, offset + 4);
      offset := offset + 5;
      v := h * 256 + l;
    }

    /**
     * `readNTP64Timestamp`: when bit 31 of the seconds is clear the code adds
     * `1 << 32`, which JavaScript evaluates to 1, not 2^32.
     */
    method ReadNTP64Timestamp() returns (t: NTP64Timestamp)
      requires InView(8)
      modifies this
      ensures offset == old(offset) + 8
      ensures t.fractional == U32(buffer, old(offset) + 4)
      ensures U32(buffer, old(offset)) >= 0x8000_0000 ==> t.seconds == U32(buffer, old(offset))
      ensures U32(buffer, old(offset)) < 0x8000_0000 ==> t.seconds == U32(buffer, old(offset)) + 1
      ensures t == NTP64At(buffer, old(offset))
    {
      var seconds := ReadUint32();
      var fractional := ReadUint32();
      if ToInt32(seconds) < 0 {
        // `seconds & (1 << 31)` is non-zero exactly when bit 31 is set
        t := NTP64Timestamp(seconds, fractional);
      } else {
        assert ShiftLeft(1, 32) == 1;
        t := NTP64Timestamp(seconds + ShiftLeft(1, 32), fractional);
      }
    }

    /** `slice(n)`: advances by n and copies bytes [old offset, old offset + n). */
    method Slice(n: int) returns (r: bytes)
      modifies this
      ensures offset == old(offset) + n
      ensures r == Js.Slice(buffer, old(offset), old(offset) + n)
    {
      offset := offset + n;
      r := Js.Slice(buffer, offset - n, offset);
    }

    /** `slice()`: copies everything from the offset and moves to the end. */
    method SliceRest() returns (r: bytes)
      modifies this
      ensures offset == |buffer|
      ensures r == Js.Slice(buffer, old(offset), |buffer|)
    {
      r := Js.Slice(buffer, offset, |buffer|);
      offset := |buffer|;
    }

    /** `subarray(n)`: the same range as `slice(n)`, as a view. */
    method Subarray(n: int) returns (r: bytes)
      modifies this
      ensures offset == old(offset) + n
      ensures r == Js.Slice(buffer, old(offset), old(offset) + n)
    {
      offset := offset + n;
      r := Js.Slice(buffer, offset - n, offset);
    }

    /** `subarray()`: like `slice()`, the rest of the buffer. */
    method SubarrayRest() returns (r: bytes)
      modifies this
      ensures offset == |buffer|
      ensures r == Js.Slice(buffer, old(offset), |buffer|)
    {
      r := Js.Slice(buffer, offset, |buffer|);
      offset := |buffer|;
    }

    method Skip(n: int)
      modifies this
      ensures offset == old(offset) + n
    {
      offset := offset + n;
    }

    method Tell() returns (o: int)
      ensures o == offset
    {
      o := offset;
    }
  }

  /** A cursor that has n bytes left can serve any read of width up to n. */
  lemma {:induction false} CanReadInView(r: BinaryReader, n: nat, k: nat)
    requires r.offset >= 0 && r.CanRead(n) && k <= n
    ensures r.InView(k)
  {
  }

  /** Sum of the lengths of a list of buffers (the `reduce` in concatBuffers). */
  function TotalLength(buffers: seq<bytes>): (n: nat)
  {
    if buffers == [] then 0 else TotalLength(buffers[..|buffers| - 1]) + |buffers[|buffers| - 1]|
  }

  /** The in-order concatenation of a list of buffers. */
  function Flatten(buffers: seq<bytes>): (r: bytes)
  {
    if buffers == [] then [] else Flatten(buffers[..|buffers| - 1]) + buffers[|buffers| - 1]
  }

  lemma {:induction false} FlattenLength(buffers: seq<bytes>)
    ensures |Flatten(buffers)| == TotalLength(buffers)
  {
    if buffers != [] {
      FlattenLength(buffers[..|buffers| - 1]);
    }
  }

  /** Concatenation splits at any index of the list. */
  lemma {:induction false} FlattenSplit(buffers: seq<bytes>, k: nat)
    requires k <= |buffers|
    ensures Flatten(buffers) == Flatten(buffers[..k]) + Flatten(buffers[k..])
    decreases |buffers|
  {
    if k == |buffers| {
      assert buffers[..k] == buffers;
      assert buffers[k..] == [];
    } else {
      var n := |buffers|;
      FlattenSplit(buffers[..n - 1], k);
      assert buffers[..n - 1][..k] == buffers[..k];
      assert buffers[k..][..|buffers[k..]| - 1] == buffers[..n - 1][k..];
    }
  }

  /** Copies `part` into `result` at `offset` (`result.set(part, offset)`). */
  method SetAt(result: array<byte>, part: bytes, offset: nat)
    requires offset + |part| <= result.Length
    modifies result
    ensures result[..offset] == old(result[..offset])
    ensures result[offset..offset + |part|] == part
  {
    var j := 0;
    while j < |part|
      invariant 0 <= j <= |part|
      invariant result[..offset] == old(result[..offset])
      invariant result[offset..offset + j] == part[..j]
    {
      result[offset + j] := part[j];
      assert result[offset..offset + j + 1] == result[offset..offset + j] + [part[j]];
      j := j + 1;
    }
  }

  /**
   * `concatBuffers`: a single buffer is returned as it is; otherwise a buffer
   * of the summed length is allocated and each part copied in at the running
   * offset.
   */
  method ConcatBuffers(buffers: seq<bytes>) returns (r: bytes)
    ensures |r| == TotalLength(buffers)
    ensures r == Flatten(buffers)
  {
    FlattenLength(buffers);
    if |buffers| == 1 {
      assert buffers[..0] == [];
      return buffers[0];
    }
    var total := TotalLength(buffers);
    var result := new byte[total];
    var offset := 0;
    var k := 0;
    while k < |buffers|
      invariant 0 <= k <= |buffers|
      invariant offset == |Flatten(buffers[..k])| <= total
      invariant result[..offset] == Flatten(buffers[..k])
    {
      var part := buffers[k];
      FlattenSplit(buffers, k + 1);
      assert buffers[..k + 1][..k] == buffers[..k];
      SetAt(result, part, offset);
      assert result[..offset + |part|] == result[..offset] + result[offset..offset + |part|];
      offset := offset + |part|;
      k := k + 1;
    }
    assert buffers[..k] == buffers;
    r := result[..];
  }

  /** `c.charCodeAt(i) & 255`: a missing character reads as NaN, masked to 0. */
  function CharByte(c: string, i: nat): (b: nat)
    ensures b < 0x100
  {
    if i < |c| then (c[i] as int) % 256 else 0
  }

  /**
   * `fourCC`: the low bytes of the first four character codes packed
   * big-endian.  The `<< 24` makes the result a signed 32-bit number.
   */
  function FourCC(c: string): (r: int)
    ensures -0x8000_0000 <= r < 0x8000_0000
    ensures (r % 0x1_0000_0000) / 0x100_0000 == CharByte(c, 0)
    ensures (r % 0x100_0000) / 0x1_0000 == CharByte(c, 1)
    ensures (r % 0x1_0000) / 0x100 == CharByte(c, 2)
    ensures r % 0x100 == CharByte(c, 3)
  {
    var word := CharByte(c, 0) * 0x100_0000 + CharByte(c, 1) * 0x1_0000 + CharByte(c, 2) * 0x100 + CharByte(c, 3);
    Unpack32(CharByte(c, 0), CharByte(c, 1), CharByte(c, 2), CharByte(c, 3));
    ToInt32Small(word);
    ToInt32(word)
  }

  /** The four bytes of a 32-bit word are recovered by division and remainder. */
  lemma {:induction false} Unpack32(b0: nat, b1: nat, b2: nat, b3: nat)
    requires b0 < 256 && b1 < 256 && b2 < 256 && b3 < 256
    ensures var w := b0 * 0x100_0000 + b1 * 0x1_0000 + b2 * 0x100 + b3;
      w / 0x100_0000 == b0 && (w % 0x100_0000) / 0x1_0000 == b1 && (w % 0x1_0000) / 0x100 == b2 && w % 0x100 == b3
  {
    var lo2 := b2 * 0x100 + b3;
    var lo1 := b1 * 0x1_0000 + lo2;
    DivExact(b0, lo1, 0x100_0000);
    DivExact(b1, lo2, 0x1_0000);
    DivExact(b0 * 0x100 + b1, lo2, 0x1_0000);
    DivExact(b2, b3, 0x100);
    DivExact(b0 * 0x1_0000 + b1 * 0x100 + b2, b3, 0x100);
  }

  /** ToInt32 keeps the bit pattern of a 32-bit unsigned value. */
  lemma {:induction false} ToInt32Small(w: int)
    requires 0 <= w < 0x1_0000_0000
    ensures ToInt32(w) % 0x1_0000_0000 == w
    ensures ToInt32(w) % 0x100_0000 == w % 0x100_0000
    ensures ToInt32(w) % 0x1_0000 == w % 0x1_0000
    ensures ToInt32(w) % 0x100 == w % 0x100
  {
  }

  /** `threeCC`: the low bytes of the first three character codes. */
  function ThreeCC(c: string): (r: nat)
    ensures r < 0x100_0000
    ensures r / 0x1_0000 == CharByte(c, 0)
    ensures (r / 0x100) % 0x100 == CharByte(c, 1)
    ensures r % 0x100 == CharByte(c, 2)
  {
    CharByte(c, 0) * 0x1_0000 + CharByte(c, 1) * 0x100 + CharByte(c, 2)
  }

  /** Seconds since the Unix epoch of midnight on a Modified Julian Date. */
  function MjdToUnixEpoch(mjd: int): (r: int)
    ensures r % 86400 == 0 && r / 86400 == mjd - 40587
  {
    (mjd - 40587) * 86400
  }

  /**
   * `bcdTimeToSeconds`: the low six BCD digits hhmmss as seconds of the day.
   * `>>` and `& 0xf` pick four-bit groups of the low 32 bits; for an integer
   * that is floor division and remainder.
   */
  function BcdTimeToSeconds(bcd: int): (r: nat)
    ensures r <= 165 * 3661
  {
    var h := (bcd / 0x10_0000) % 16 * 10 + (bcd / 0x1_0000) % 16;
    var m := (bcd / 0x1000) % 16 * 10 + (bcd / 0x100) % 16;
    var s := (bcd / 0x10) % 16 * 10 + bcd % 16;
    h * 3600 + m * 60 + s
  }

  /** The BCD coding of a time of day hh:mm:ss into six digits. */
  function BcdTime(h: nat, m: nat, s: nat): (bcd: nat)
    requires h < 100 && m < 100 && s < 100
    ensures bcd < 0x100_0000
  {
    (h / 10) * 0x10_0000 + (h % 10) * 0x1_0000 + (m / 10) * 0x1000 + (m % 10) * 0x100 + (s / 10) * 0x10 + s % 10
  }

  /** Each of the six four-bit groups of a BCD value is read back as its digit. */
  lemma {:induction false} BcdDigits(high: int, d5: nat, d4: nat, d3: nat, d2: nat, d1: nat, d0: nat)
    requires d5 < 10 && d4 < 10 && d3 < 10 && d2 < 10 && d1 < 10 && d0 < 10
    ensures BcdTimeToSeconds(high * 0x100_0000 + d5 * 0x10_0000 + d4 * 0x1_0000 + d3 * 0x1000 + d2 * 0x100 + d1 * 0x10 + d0)
         == (d5 * 10 + d4) * 3600 + (d3 * 10 + d2) * 60 + d1 * 10 + d0
  {
    var a1 := high * 16 + d5;
    var a2 := a1 * 16 + d4;
    var a3 := a2 * 16 + d3;
    var a4 := a3 * 16 + d2;
    var a5 := a4 * 16 + d1;
    var v := a5 * 16 + d0;
    assert v == high * 0x100_0000 + d5 * 0x10_0000 + d4 * 0x1_0000 + d3 * 0x1000 + d2 * 0x100 + d1 * 0x10 + d0;
    DivExact(a5, d0, 0x10);
    DivExact(a4, d1 * 0x10 + d0, 0x100);
    DivExact(a3, d2 * 0x100 + d1 * 0x10 + d0, 0x1000);
    DivExact(a2, d3 * 0x1000 + d2 * 0x100 + d1 * 0x10 + d0, 0x1_0000);
    DivExact(a1, d4 * 0x1_0000 + d3 * 0x1000 + d2 * 0x100 + d1 * 0x10 + d0, 0x10_0000);
    DivExact(a4, d1, 16);
    DivExact(a3, d2, 16);
    DivExact(a2, d3, 16);
    DivExact(a1, d4, 16);
    DivExact(high, d5, 16);
  }

  /** BCD decoding inverts BCD coding, whatever lies above the six digits. */
  lemma {:induction false} BcdTimeRoundTrip(h: nat, m: nat, s: nat, high: int)
    requires h < 100 && m < 100 && s < 100
    ensures BcdTimeToSeconds(high * 0x100_0000 + BcdTime(h, m, s)) == h * 3600 + m * 60 + s
  {
    BcdDigits(high, h / 10, h % 10, m / 10, m % 10, s / 10, s % 10);
  }

  /**
   * `mjdBCDToUnixEpoch`: a 40-bit MJD + BCD time in JST (UTC+9) as seconds
   * since the Unix epoch.
   */
  function MjdBcdToUnixEpoch(mjdbcd: int): (r: int)
  {
    MjdToUnixEpoch(mjdbcd / 0x100_0000) + BcdTimeToSeconds(mjdbcd) - 3600 * 9
  }

  /** A 40-bit MJD + BCD value decodes to its day and its time of day in JST. */
  lemma {:induction false} MjdBcdToUnixEpochOf(mjd: nat, h: nat, m: nat, s: nat)
    requires h < 100 && m < 100 && s < 100
    ensures MjdBcdToUnixEpoch(mjd * 0x100_0000 + BcdTime(h, m, s))
         == (mjd - 40587) * 86400 + h * 3600 + m * 60 + s - 32400
  {
    BcdTimeRoundTrip(h, m, s, mjd);
    assert (mjd * 0x100_0000 + BcdTime(h, m, s)) / 0x100_0000 == mjd;
  }

  /** `${address[i]}`: a missing element prints as "undefined". */
  function ElementText(address: bytes, i: nat): (s: string)
  {
    if i < |address| then DecimalString(address[i]) else "undefined"
  }

  /** `ipv4ToString`: dotted decimal of the first four bytes. */
  function Ipv4ToString(address: bytes): (r: string)
  {
    ElementText(address, 0) + "." + ElementText(address, 1) + "." + ElementText(address, 2) + "." + ElementText(address, 3)
  }

  /** Of a four-byte address, the text holds exactly three dots. */
  lemma {:induction false} Ipv4ToStringDots(address: bytes)
    requires |address| >= 4
    ensures CountChar(Ipv4ToString(address), '.') == 3
  {
    var t0, t1, t2, t3 := ElementText(address, 0), ElementText(address, 1), ElementText(address, 2), ElementText(address, 3);
    CountCharDigits(t0, '.');
    CountCharDigits(t1, '.');
    CountCharDigits(t2, '.');
    CountCharDigits(t3, '.');
    assert CountChar(".", '.') == 1 by { assert "."[..0] == []; }
    CountCharConcat(t0, ".", '.');
    CountCharConcat(t0 + ".", t1, '.');
    CountCharConcat(t0 + "." + t1, ".", '.');
    CountCharConcat(t0 + "." + t1 + ".", t2, '.');
    CountCharConcat(t0 + "." + t1 + "." + t2, ".", '.');
    CountCharConcat(t0 + "." + t1 + "." + t2 + ".", t3, '.');
  }

  predicate DigitsAndDots(s: string)
  {
    forall k :: 0 <= k < |s| ==> s[k] == '.' || '0' <= s[k] <= '9'
  }

  /** Of a four-byte address, every other character of the text is a decimal digit. */
  lemma {:induction false} Ipv4ToStringChars(address: bytes)
    requires |address| >= 4
    ensures DigitsAndDots(Ipv4ToString(address))
  {
    var t0, t1, t2, t3 := ElementText(address, 0), ElementText(address, 1), ElementText(address, 2), ElementText(address, 3);
    assert DigitsAndDots(t0) && DigitsAndDots(t1) && DigitsAndDots(t2) && DigitsAndDots(t3);
    DigitsAndDotsConcat(t0, ".");
    DigitsAndDotsConcat(t0 + ".", t1);
    DigitsAndDotsConcat(t0 + "." + t1, ".");
    DigitsAndDotsConcat(t0 + "." + t1 + ".", t2);
    DigitsAndDotsConcat(t0 + "." + t1 + "." + t2, ".");
    DigitsAndDotsConcat(t0 + "." + t1 + "." + t2 + ".", t3);
  }

  lemma {:induction false} DigitsAndDotsConcat(a: string, b: string)
    requires DigitsAndDots(a) && DigitsAndDots(b)
    ensures DigitsAndDots(a + b)
  {
    forall k | 0 <= k < |a + b|
      ensures (a + b)[k] == '.' || '0' <= (a + b)[k] <= '9'
    {
      if k < |a| { assert (a + b)[k] == a[k]; } else { assert (a + b)[k] == b[k - |a|]; }
    }
  }

  function CountChar(s: string, c: char): nat
  {
    if s == [] then 0 else CountChar(s[..|s| - 1], c) + (if s[|s| - 1] == c then 1 else 0)
  }

  lemma {:induction false} CountCharConcat(a: string, b: string, c: char)
    ensures CountChar(a + b, c) == CountChar(a, c) + CountChar(b, c)
    decreases |b|
  {
    if b != [] {
      assert (a + b)[..|a + b| - 1] == a + b[..|b| - 1];
      CountCharConcat(a, b[..|b| - 1], c);
    } else {
      assert a + b == a;
    }
  }

  lemma {:induction false} CountCharDigits(s: string, c: char)
    requires forall k :: 0 <= k < |s| ==> '0' <= s[k] <= '9'
    requires !('0' <= c <= '9')
    ensures CountChar(s, c) == 0
    decreases |s|
  {
    if s != [] {
      CountCharDigits(s[..|s| - 1], c);
    }
  }

  /** `(address[i] << 8) | address[i + 1]`; a missing element reads as 0. */
  function FieldAt(address: bytes, i: int): (f: nat)
    ensures f < 0x1_0000
  {
    var hi := if 0 <= i < |address| then address[i] as int else 0;
    var lo := if 0 <= i + 1 < |address| then address[i + 1] as int else 0;
    hi * 0x100 + lo
  }

  /** The longest run of zero fields as ipv6ToString's first loop finds it. */
  datatype ZeroRun = ZeroRun(count: int, offset: int)

  /**
   * The first loop of ipv6ToString from field index i on, with the running
   * zero count and the offset of the last non-zero field seen, and the best
   * run so far.  `count` is in bytes (2 per zero field).
   */
  function ZeroScan(address: bytes, i: int, zeroCount: int, zeroOffset: int, best: ZeroRun): (r: ZeroRun)
    decreases 16 - i
  {
    if i >= 16 then best
    else
      var f := FieldAt(address, i);
      var zc := if f == 0 then zeroCount + 2 else 0;
      var zo := if f == 0 then zeroOffset else i;
      ZeroScan(address, i + 2, zc, zo, if best.count < zc then ZeroRun(zc, zo) else best)
  }

  /** What the second loop of ipv6ToString appends for field index i. */
  function Piece(address: bytes, i: int, run: ZeroRun): (s: string)
  {
    if run.count > 2 && i > run.offset && i <= run.offset + run.count then
      (if i == run.offset + run.count then ":" else "")
    else
      HexString(FieldAt(address, i)) + (if i + 2 < 16 then ":" else "")
  }

  /** The text the second loop has built once it reaches field index i. */
  function EmitFields(address: bytes, i: int, run: ZeroRun): (s: string)
    decreases i
  {
    if i <= 0 then "" else EmitFields(address, i - 2, run) + Piece(address, i - 2, run)
  }

  /** What ipv6ToString returns. */
  function Ipv6Text(address: bytes): string
  {
    EmitFields(address, 16, ZeroScan(address, 0, 0, 0, ZeroRun(0, -1)))
  }

  /** Colon-separated parts (`parts.join(":")`). */
  function JoinColon(parts: seq<string>): (s: string)
  {
    if |parts| == 0 then ""
    else if |parts| == 1 then parts[0]
    else JoinColon(parts[..|parts| - 1]) + ":" + parts[|parts| - 1]
  }

  /** The eight 16-bit fields in lowercase hexadecimal. */
  function HexFields(address: bytes): (parts: seq<string>)
    ensures |parts| == 8
  {
    seq(8, k requires 0 <= k < 8 => HexString(FieldAt(address, 2 * k)))
  }

  /** No two consecutive 16-bit fields are both zero. */
  predicate NoZeroPair(address: bytes)
  {
    forall k :: 0 <= k < 7 ==> FieldAt(address, 2 * k) != 0 || FieldAt(address, 2 * k + 2) != 0
  }

  /**
   * `ipv6ToString`: a first pass finds the longest run of zero fields, a
   * second prints the fields in hexadecimal, replacing that run by "::" when
   * it spans at least two fields.
   */
  method Ipv6ToString(address: bytes) returns (result: string)
    ensures result == Ipv6Text(address)
  {
    var run := LongestZeroRun(address);
    result := EmitAddress(address, run);
  }

  /** ipv6ToString's first loop: the longest run of zero fields. */
  method LongestZeroRun(address: bytes) returns (run: ZeroRun)
    ensures run == ZeroScan(address, 0, 0, 0, ZeroRun(0, -1))
  {
    var maxZeroCount := 0;
    var maxZeroOffset := -1;
    var zeroOffset := 0;
    var zeroCount := 0;
    var i := 0;
    ghost var k := 0;
    while i < 16
      invariant 0 <= k <= 8 && i == 2 * k
      invariant ZeroScan(address, i, zeroCount, zeroOffset, ZeroRun(maxZeroCount, maxZeroOffset))
             == ZeroScan(address, 0, 0, 0, ZeroRun(0, -1))
    {
      ghost var before := ZeroScan(address, i, zeroCount, zeroOffset, ZeroRun(maxZeroCount, maxZeroOffset));
      var field := FieldAt(address, i);
      if field == 0 {
        zeroCount := zeroCount + 2;
      } else {
        zeroCount := 0;
        zeroOffset := i;
      }
      if maxZeroCount < zeroCount {
        maxZeroCount := zeroCount;
        maxZeroOffset := zeroOffset;
      }
      assert before == ZeroScan(address, i + 2, zeroCount, zeroOffset, ZeroRun(maxZeroCount, maxZeroOffset));
      i := i + 2;
      k := k + 1;
    }
    assert i == 16;
    run := ZeroRun(maxZeroCount, maxZeroOffset);
  }

  /** ipv6ToString's second loop: each field in hexadecimal, the run replaced by "::". */
  method EmitAddress(address: bytes, run: ZeroRun) returns (result: string)
    ensures result == EmitFields(address, 16, run)
  {
    result := "";
    var i := 0;
    ghost var k := 0;
    while i < 16
      invariant 0 <= k <= 8 && i == 2 * k
      invariant result == EmitFields(address, i, run)
    {
      var field := FieldAt(address, i);
      var piece := "";
      if run.count > 2 && i > run.offset && i <= run.offset + run.count {
        if i == run.offset + run.count {
          piece := ":";
        }
      } else {
        piece := HexString(field);
        if i + 2 < 16 {
          piece := piece + ":";
        }
      }
      assert piece == Piece(address, i, run);
      result := result + piece;
      i := i + 2;
      k := k + 1;
    }
    assert i == 16;
  }

  /** Without a pair of zero fields, the first pass finds no run to compress. */
  lemma {:induction false} ZeroScanShort(address: bytes, i: int, zeroCount: int, zeroOffset: int, best: ZeroRun)
    requires NoZeroPair(address) && 0 <= i && i % 2 == 0
    requires best.count <= 2 && zeroCount in {0, 2}
    requires zeroCount == 2 ==> i >= 2 && FieldAt(address, i - 2) == 0
    ensures ZeroScan(address, i, zeroCount, zeroOffset, best).count <= 2
    decreases 16 - i
  {
    if i < 16 {
      var f := FieldAt(address, i);
      if i >= 2 {
        NoZeroPairAt(address, (i - 2) / 2);
      }
      var zc := if f == 0 then zeroCount + 2 else 0;
      var zo := if f == 0 then zeroOffset else i;
      ZeroScanShort(address, i + 2, zc, zo, if best.count < zc then ZeroRun(zc, zo) else best);
    }
  }

  lemma {:induction false} NoZeroPairAt(address: bytes, k: int)
    requires NoZeroPair(address) && 0 <= k < 7
    ensures FieldAt(address, 2 * k) != 0 || FieldAt(address, 2 * k + 2) != 0
  {
  }

  /** With no run to compress, field k's text is followed by a colon unless last. */
  lemma {:induction false} EmitFieldsPlain(address: bytes, k: nat, run: ZeroRun)
    requires run.count <= 2 && k < 8
    ensures EmitFields(address, 2 * k + 2, run) == JoinColon(HexFields(address)[..k + 1]) + (if k < 7 then ":" else "")
  {
    var parts := HexFields(address);
    if k == 0 {
      assert EmitFields(address, 0, run) == "";
    } else {
      EmitFieldsPlain(address, k - 1, run);
      var before := JoinColon(parts[..k]);
      var tail := if k < 7 then ":" else "";
      assert EmitFields(address, 2 * k + 2, run) == EmitFields(address, 2 * k, run) + Piece(address, 2 * k, run);
      assert Piece(address, 2 * k, run) == parts[k] + tail;
      assert JoinColon(parts[..k + 1]) == before + ":" + parts[k] by {
        assert parts[..k + 1][..k] == parts[..k];
      }
      assert (before + ":") + (parts[k] + tail) == before + ":" + parts[k] + tail;
    }
  }

  /**
   * When no two consecutive fields are zero, ipv6ToString prints all eight
   * fields in lowercase hexadecimal without leading zeros, joined by colons.
   */
  lemma {:induction false} Ipv6TextUncompressed(address: bytes)
    requires NoZeroPair(address)
    ensures Ipv6Text(address) == JoinColon(HexFields(address))
  {
    ZeroScanShort(address, 0, 0, 0, ZeroRun(0, -1));
    EmitFieldsPlain(address, 7, ZeroScan(address, 0, 0, 0, ZeroRun(0, -1)));
    assert HexFields(address)[..8] == HexFields(address);
  }

  /**
   * The zero run is placed after the last non-zero field seen, so a run at
   * the start of the address keeps its first field and swallows the field
   * that ends it: an address whose first seven fields are zero (the loopback
   * address ::1, say) prints as "0::" whatever its last field holds.
   */
  lemma {:induction false} Ipv6TextLeadingRun(address: bytes)
    requires forall i :: 0 <= i < 14 && i % 2 == 0 ==> FieldAt(address, i) == 0
    requires FieldAt(address, 14) != 0
    ensures Ipv6Text(address) == "0::"
  {
    var z := ZeroRun(0, -1);
    assert FieldAt(address, 0) == 0 && FieldAt(address, 2) == 0 && FieldAt(address, 4) == 0;
    assert FieldAt(address, 6) == 0 && FieldAt(address, 8) == 0 && FieldAt(address, 10) == 0;
    assert FieldAt(address, 12) == 0;
    var run := ZeroRun(14, 0);
    calc {
      ZeroScan(address, 0, 0, 0, z);
      ZeroScan(address, 2, 2, 0, ZeroRun(2, 0));
      ZeroScan(address, 4, 4, 0, ZeroRun(4, 0));
      ZeroScan(address, 6, 6, 0, ZeroRun(6, 0));
      ZeroScan(address, 8, 8, 0, ZeroRun(8, 0));
      ZeroScan(address, 10, 10, 0, ZeroRun(10, 0));
      ZeroScan(address, 12, 12, 0, ZeroRun(12, 0));
      ZeroScan(address, 14, 14, 0, run);
      ZeroScan(address, 16, 0, 14, run);
      run;
    }
    assert HexString(0) == "0";
    assert EmitFields(address, 2, run) == "0:";
    assert EmitFields(address, 14, run) == "0:" by {
      assert EmitFields(address, 4, run) == "0:";
      assert EmitFields(address, 6, run) == "0:";
      assert EmitFields(address, 8, run) == "0:";
      assert EmitFields(address, 10, run) == "0:";
      assert EmitFields(address, 12, run) == "0:";
    }
    assert EmitFields(address, 16, run) == "0:" + ":";
  }

  /** Joining n parts that contain no colon writes n - 1 colons. */
  lemma {:induction false} JoinColonColons(parts: seq<string>)
    requires forall k :: 0 <= k < |parts| ==> CountChar(parts[k], ':') == 0
    ensures CountChar(JoinColon(parts), ':') == if |parts| == 0 then 0 else |parts| - 1
  {
    if |parts| > 1 {
      var init := parts[..|parts| - 1];
      JoinColonColons(init);
      assert CountChar(":", ':') == 1 by { assert ":"[..0] == []; }
      CountCharConcat(JoinColon(init), ":", ':');
      CountCharConcat(JoinColon(init) + ":", parts[|parts| - 1], ':');
    }
  }

  /** Uncompressed output has exactly seven colons. */
  lemma {:induction false} Ipv6TextSevenColons(address: bytes)
    requires NoZeroPair(address)
    ensures CountChar(Ipv6Text(address), ':') == 7
  {
    Ipv6TextUncompressed(address);
    var parts := HexFields(address);
    forall k | 0 <= k < 8 ensures CountChar(parts[k], ':') == 0 {
      HexNoColon(parts[k]);
    }
    JoinColonColons(parts);
  }

  lemma {:induction false} HexNoColon(s: string)
    requires forall k :: 0 <= k < |s| ==> IsHexDigit(s[k])
    ensures CountChar(s, ':') == 0
    decreases |s|
  {
    if s != [] {
      HexNoColon(s[..|s| - 1]);
    }
  }
}
