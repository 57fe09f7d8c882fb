// The parts of JavaScript's number, typed-array and DataView semantics that
// the decoders depend on: 32-bit conversions for the bitwise operators,
// relative-index clamping for `slice`/`subarray`, and big-endian DataView
// reads.  Nothing here belongs to the repository; it is the runtime the
// repository's code runs on, written out so that its edge cases are explicit.
module Js {

  type byte = x: int | 0 <= x < 256
  type bytes = seq<byte>


  /** ToInt32: the conversion every bitwise operator applies to its operands. */
  function ToInt32(x: int): (r: int)
    ensures -0x8000_0000 <= r < 0x8000_0000
    ensures (r - x) % 0x1_0000_0000 == 0
  {
    var m := x % 0x1_0000_0000;
    if m >= 0x8000_0000 then m - 0x1_0000_0000 else m
  }

  /** `x << k` for an integer x: the shift count is taken mod 32. */
  function ShiftLeft(x: int, k: nat): (r: int)
    ensures -0x8000_0000 <= r < 0x8000_0000
  {
    ToInt32(ToInt32(x) * Pow2(k % 32))
  }

  function Pow2(k: nat): (r: nat)
    ensures r >= 1
  {
    if k == 0 then 1 else 2 * Pow2(k - 1)
  }

  /**
   * The relative index of `TypedArray.prototype.slice`/`subarray`: a negative
   * index counts from the end, and the result is clamped to [0, len].
   */
  function RelIndex(i: int, len: nat): (r: nat)
    ensures r <= len
    ensures 0 <= i <= len ==> r == i
    ensures i > len ==> r == len
    ensures i + len <= 0 ==> r == 0
  {
    if i < 0 then (if len + i < 0 then 0 else len + i)
    else if i > len then len
    else i
  }

  /** `b.slice(start, end)` (and `b.subarray(start, end)`, read as a value). */
  function Slice(b: bytes, start: int, end: int): (r: bytes)
    ensures |r| <= |b|
    ensures 0 <= start <= end <= |b| ==> r == b[start..end]
    ensures 0 <= end <= start ==> r == []
  {
    var s := RelIndex(start, |b|);
    var e := RelIndex(end, |b|);
    if e <= s then [] else b[s..e]
  }

  /** A range that starts inside the buffer is cut at the end of the buffer. */
  lemma {:induction false} SliceClamped(b: bytes, start: int, end: int)
    requires 0 <= start <= end
    ensures Slice(b, start, end) == if end <= |b| then b[start..end] else if start <= |b| then b[start..] else []
  {
  }

  /** Whether a DataView read of `n` bytes at `offset` stays inside the view. */
  predicate InView(b: bytes, offset: int, n: nat)
  {
    0 <= offset && offset + n <= |b|
  }

  function U8(b: bytes, o: int): (r: nat)
    requires InView(b, o, 1)
    ensures r < 0x100
  {
    b[o]
  }

  function U16(b: bytes, o: int): (r: nat)
    requires InView(b, o, 2)
    ensures r < 0x1_0000
  {
    (b[o] as int) * 0x100 + b[o + 1]
  }

  function U24(b: bytes, o: int): (r: nat)
    requires InView(b, o, 3)
    ensures r < 0x100_0000
  {
    U16(b, o) * 0x100 + b[o + 2]
  }

  function U32(b: bytes, o: int): (r: nat)
    requires InView(b, o, 4)
    ensures r < 0x1_0000_0000
  {
    U16(b, o) * 0x1_0000 + U16(b, o + 2)
  }

  function U40(b: bytes, o: int): (r: nat)
    requires InView(b, o, 5)
    ensures r < 0x1_0000_0000 * 0x100
  {
    U32(b, o) * 0x100 + b[o + 4]
  }

  /** DataView.getInt16: the 16-bit big-endian value read as two's complement. */
  function I16(b: bytes, o: int): (r: int)
    requires InView(b, o, 2)
    ensures -0x8000 <= r < 0x8000
  {
    var u := U16(b, o);
    if u >= 0x8000 then u - 0x1_0000 else u
  }

  /** The big-endian encoding of a 16-bit value: the two bytes U16 reads back as it. */
  ghost function Be16(v: nat): (r: bytes)
    requires v < 0x1_0000
    ensures |r| == 2 && U16(r, 0) == v
  {
    var w: bytes := [v / 0x100, v % 0x100];
    assert U16(w, 0) == v;
    var r: bytes :| |r| == 2 && U16(r, 0) == v;
    r
  }

  /** The two big-endian bytes of the low 16 bits of v. */
  function Word(v: nat): (r: bytes)
    ensures |r| == 2 && (v < 0x1_0000 ==> U16(r, 0) == v)
  {
    [(v / 0x100 % 0x100) as byte, (v % 0x100) as byte]
  }

  /** A 16-bit read of two bytes found at o. */
  lemma {:induction false} WordAt(b: bytes, o: int, v: nat)
    requires v < 0x1_0000 && 0 <= o && o + 2 <= |b| && b[o] == Word(v)[0] && b[o + 1] == Word(v)[1]
    ensures U16(b, o) == v
  {
  }

  /** A 16-bit read of the two bytes of Word(v) found at o. */
  lemma {:induction false} WordFound(b: bytes, o: int, v: nat)
    requires v < 0x1_0000 && At(b, o, Word(v))
    ensures U16(b, o) == v
  {
    WordAt(b, o, v);
  }

  /** The three big-endian bytes of the low 24 bits of v. */
  function Word24(v: nat): (r: bytes)
    ensures |r| == 3
  {
    Word(v / 0x100) + [(v % 0x100) as byte]
  }

  /** The four big-endian bytes of the low 32 bits of v. */
  function Word32(v: nat): (r: bytes)
    ensures |r| == 4
  {
    Word(v / 0x1_0000) + Word(v % 0x1_0000)
  }

  /** The five big-endian bytes of the low 40 bits of v. */
  function Word40(v: nat): (r: bytes)
    ensures |r| == 5
  {
    Word32(v / 0x100) + [(v % 0x100) as byte]
  }

  /** A 24-bit read of three bytes found at o. */
  lemma {:induction false} Word24At(b: bytes, o: int, v: nat)
    requires v < 0x100_0000 && At(b, o, Word24(v))
    ensures U24(b, o) == v
  {
    AtSplit(b, o, Word(v / 0x100), [(v % 0x100) as byte]);
    WordFound(b, o, v / 0x100);
    assert b[o + 2] == Word24(v)[2];
  }

  /** A 32-bit read of four bytes found at o. */
  lemma {:induction false} Word32At(b: bytes, o: int, v: nat)
    requires v < 0x1_0000_0000 && At(b, o, Word32(v))
    ensures U32(b, o) == v
  {
    AtSplit(b, o, Word(v / 0x1_0000), Word(v % 0x1_0000));
    WordFound(b, o, v / 0x1_0000);
    WordFound(b, o + 2, v % 0x1_0000);
  }

  /** A 40-bit read of five bytes found at o. */
  lemma {:induction false} Word40At(b: bytes, o: int, v: nat)
    requires v < 0x1_0000_0000 * 0x100 && At(b, o, Word40(v))
    ensures U40(b, o) == v
  {
    AtSplit(b, o, Word32(v / 0x100), [(v % 0x100) as byte]);
    Word32At(b, o, v / 0x100);
    assert b[o + 4] == Word40(v)[4];
  }

  /** The big-endian encoding of a 32-bit value: the four bytes U32 reads back as it. */
  ghost function Be32(v: nat): (r: bytes)
    requires v < 0x1_0000_0000
    ensures |r| == 4 && U32(r, 0) == v
  {
    var w := Be16(v / 0x1_0000) + Be16(v % 0x1_0000);
    assert U16(w, 0) == v / 0x1_0000 && U16(w, 2) == v % 0x1_0000;
    assert U32(w, 0) == v;
    var r: bytes :| |r| == 4 && U32(r, 0) == v;
    r
  }

  /** Euclidean division recovers the quotient and remainder it was built from. */
  lemma {:induction false} DivExact(a: int, r: int, d: int)
    requires 0 <= r < d
    ensures (a * d + r) / d == a && (a * d + r) % d == r
  {
    var q := (a * d + r) / d;
    assert (a - q) * d == (a * d + r) % d - r;
    assert a - q >= 1 ==> (a - q) * d >= d;
    assert a - q <= -1 ==> (a - q) * d <= -d;
  }

  /** A big-endian read is unaffected by what precedes or follows the bytes it reads. */
  lemma {:induction false} U16Shift(a: bytes, b: bytes, c: bytes)
    requires |b| >= 2
    ensures U16(a + b + c, |a|) == U16(b, 0)
  {
    assert (a + b + c)[|a|] == b[0] && (a + b + c)[|a| + 1] == b[1];
  }

  lemma {:induction false} U32Shift(a: bytes, b: bytes, c: bytes)
    requires |b| >= 4
    ensures U32(a + b + c, |a|) == U32(b, 0)
  {
    U16Shift(a, b, c);
    U16Shift(a + b[..2], b[2..], c);
    assert a + b[..2] + b[2..] == a + b;
  }

  /** A 16-bit read sees only the two bytes it covers. */
  lemma {:induction false} U16Window(b: bytes, o: int, w: bytes)
    requires 0 <= o && o + 2 <= |b| && |w| == 2 && b[o..o + 2] == w
    ensures U16(b, o) == U16(w, 0)
  {
    assert b[o] == w[0] && b[o + 1] == w[1];
  }

  /** A 32-bit read sees only the four bytes it covers. */
  lemma {:induction false} U32Window(b: bytes, o: int, w: bytes)
    requires 0 <= o && o + 4 <= |b| && |w| == 4 && b[o..o + 4] == w
    ensures U32(b, o) == U32(w, 0)
  {
    assert b[o] == w[0] && b[o + 1] == w[1] && b[o + 2] == w[2] && b[o + 3] == w[3];
  }

  /** A window holding two concatenated parts holds each part at its place. */
  lemma {:induction false} SplitWindow(b: bytes, o: int, x: bytes, y: bytes)
    requires 0 <= o && o + |x| + |y| <= |b| && b[o..o + |x| + |y|] == x + y
    ensures b[o..o + |x|] == x && b[o + |x|..o + |x| + |y|] == y
  {
    var w := b[o..o + |x| + |y|];
    assert b[o..o + |x|] == w[..|x|];
    assert b[o + |x|..o + |x| + |y|] == w[|x|..];
  }

  /** The bytes of x appear in b from offset o on. */
  predicate At(b: bytes, o: int, x: bytes)
  {
    0 <= o && o + |x| <= |b| && forall i {:trigger x[i]} :: 0 <= i < |x| ==> b[o + i] == x[i]
  }

  /** Two parts found together are found one after the other. */
  lemma {:induction false} AtSplit(b: bytes, o: int, x: bytes, y: bytes)
    requires At(b, o, x + y)
    ensures At(b, o, x) && At(b, o + |x|, y)
  {
    forall i | 0 <= i < |x|
      ensures b[o + i] == x[i]
    {
      assert x[i] == (x + y)[i];
    }
    forall i | 0 <= i < |y|
      ensures b[o + |x| + i] == y[i]
    {
      assert y[i] == (x + y)[|x| + i];
    }
  }

  /** The bytes found at o are the slice of b from o. */
  lemma {:induction false} AtSlice(b: bytes, o: int, x: bytes)
    requires At(b, o, x)
    ensures b[o..o + |x|] == x
  {
    forall i | 0 <= i < |x|
      ensures b[o..o + |x|][i] == x[i]
    {
      assert b[o + i] == x[i];
    }
  }

  /** Any byte string is found at the start of itself followed by more. */
  lemma {:induction false} AtPrefix(x: bytes, y: bytes)
    ensures At(x + y, 0, x)
  {
    forall i | 0 <= i < |x|
      ensures (x + y)[0 + i] == x[i]
    {
    }
  }

  /** A byte string is found where it sits between two others. */
  lemma {:induction false} AtMiddle(x: bytes, y: bytes, z: bytes)
    ensures At(x + y + z, |x|, y)
  {
    forall i | 0 <= i < |y|
      ensures (x + y + z)[|x| + i] == y[i]
    {
    }
  }

  /** AtSplit for a byte string z already known to be x + y. */
  lemma {:induction false} AtSplitOf(b: bytes, o: int, z: bytes, x: bytes, y: bytes)
    requires z == x + y && At(b, o, z)
    ensures At(b, o, x) && At(b, o + |x|, y)
  {
    AtSplit(b, o, x, y);
  }

  lemma {:induction false} AtU16(b: bytes, o: int, w: bytes)
    requires At(b, o, w) && |w| == 2
    ensures U16(b, o) == U16(w, 0)
  {
    assert b[o] == w[0] && b[o + 1] == w[1];
  }

  /** A 16-bit big-endian prefix followed by e: the prefix reads as n, e follows it. */
  lemma {:induction false} AtPrefix16(b: bytes, n: nat, e: bytes)
    requires n < 0x1_0000 && At(b, 0, Be16(n) + e)
    ensures |b| >= 2 && U16(b, 0) == n && At(b, 2, e)
  {
    AtSplit(b, 0, Be16(n), e);
    AtU16(b, 0, Be16(n));
  }

  /** A 32-bit read of found bytes. */
  lemma {:induction false} AtU32(b: bytes, o: int, w: bytes)
    requires At(b, o, w) && |w| == 4
    ensures U32(b, o) == U32(w, 0)
  {
    assert b[o] == w[0] && b[o + 1] == w[1] && b[o + 2] == w[2] && b[o + 3] == w[3];
  }

  /** Decimal text of a natural number, as template literals print it. */
  function DecimalString(n: nat): (s: string)
    ensures |s| >= 1
    ensures forall k :: 0 <= k < |s| ==> '0' <= s[k] <= '9'
    decreases n
  {
    if n < 10 then [(48 + n) as char]
    else DecimalString(n / 10) + [(48 + n % 10) as char]
  }

  function HexDigit(d: nat): (c: char)
    requires d < 16
    ensures IsHexDigit(c)
  {
    if d < 10 then (48 + d) as char else (87 + d) as char
  }

  predicate IsHexDigit(c: char)
  {
    ('0' <= c <= '9') || ('a' <= c <= 'f')
  }

  function HexDigitValue(c: char): (d: nat)
    requires IsHexDigit(c)
    ensures d < 16
  {
    if '0' <= c <= '9' then c as int - 48 else c as int - 87
  }

  /** `n.toString(16)`: lowercase hexadecimal without leading zeros. */
  function HexString(n: nat): (s: string)
    ensures |s| >= 1
    ensures forall k :: 0 <= k < |s| ==> IsHexDigit(s[k])
    decreases n
  {
    if n < 16 then [HexDigit(n)]
    else HexString(n / 16) + [HexDigit(n % 16)]
  }

  /** The value a lowercase hexadecimal text denotes. */
  function HexValue(s: string): (n: nat)
    requires forall k :: 0 <= k < |s| ==> IsHexDigit(s[k])
  {
    if s == [] then 0
    else HexValue(s[..|s| - 1]) * 16 + HexDigitValue(s[|s| - 1])
  }

  /** `toString(16)` loses nothing: reading its text back gives the number. */
  lemma {:induction false} HexStringRoundTrip(n: nat)
    ensures HexValue(HexString(n)) == n
    decreases n
  {
    var s := HexString(n);
    if n < 16 {
      assert s[..|s| - 1] == [];
    } else {
      HexStringRoundTrip(n / 16);
      assert s[..|s| - 1] == HexString(n / 16);
    }
  }

  /** `toString(16)` writes no leading zero: only 0 itself starts with '0'. */
  lemma {:induction false} HexStringNoLeadingZero(n: nat)
    ensures HexString(n)[0] == '0' <==> n == 0
    decreases n
  {
    if n >= 16 {
      HexStringNoLeadingZero(n / 16);
    }
  }

  /** `toString(16)` of a 16-bit field is between one and four digits long. */
  lemma {:induction false} HexStringLength(n: nat)
    requires n < 0x1_0000
    ensures 1 <= |HexString(n)| <= 4
  {
    if n >= 16 {
      assert |HexString(n)| == |HexString(n / 16)| + 1;
      if n / 16 >= 16 {
        assert |HexString(n / 16)| == |HexString(n / 256)| + 1;
        if n / 256 >= 16 {
          assert n / 256 / 16 < 16;
        }
      }
    }
  }
}
