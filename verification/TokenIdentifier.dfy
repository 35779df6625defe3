/**
 * EXT token identifiers (integration/entrepot/ext.ts): a prefix, the canister's principal bytes and a 32-bit
 * index. Principals are their bytes here; the text form of a principal is a bijection on them.
 */
module TokenIdentifier {
  import opened Common

  type Byte = b: int | 0 <= b < 256 witness 0

  const TWO31 := 0x8000_0000
  const TWO32 := 0x1_0000_0000

  /** "\x0Atid" */
  const PREFIX: seq<Byte> := [0x0A, 0x74, 0x69, 0x64]

  // ---------------------------------------------------------------- 32-bit integers

  /** The signed and unsigned 32-bit readings of an integer, as the shift and the buffer take them. */
  function ToInt32(x: int): (r: int)
    ensures -TWO31 <= r < TWO31
  {
    (x + TWO31) % TWO32 - TWO31
  }

  function ToUint32(x: int): (r: int)
    ensures 0 <= r < TWO32
  {
    x % TWO32
  }

  /** Bitwise or of two numbers of the given width. */
  function OrBits(a: nat, b: nat, width: nat): nat {
    if width == 0 then 0
    else (if a % 2 == 1 || b % 2 == 1 then 1 else 0) + 2 * OrBits(a / 2, b / 2, width - 1)
  }

  /** v << 8 and v | w on 32-bit integers. */
  function ShiftLeft8(v: int): int {
    ToInt32(ToInt32(v) * 256)
  }

  function Or(v: int, w: int): int {
    ToInt32(OrBits(ToUint32(v), ToUint32(w), 32))
  }

  /** The lowest bits of a are zero. */
  predicate LowZero(a: nat, bits: nat) {
    bits == 0 || (a % 2 == 0 && LowZero(a / 2, bits - 1))
  }

  /** a is written with at most this many bits. */
  predicate Fits(a: nat, bits: nat) {
    if bits == 0 then a == 0 else Fits(a / 2, bits - 1)
  }

  lemma {:induction false} OrZero(a: nat, width: nat)
    requires Fits(a, width)
    ensures OrBits(a, 0, width) == a
  {
    if width > 0 {
      OrZero(a / 2, width - 1);
    }
  }

  /** Or adds numbers that have no bit in common. */
  lemma {:induction false} OrAdds(a: nat, b: nat, low: nat, width: nat)
    requires low <= width && Fits(a, width) && LowZero(a, low) && Fits(b, low)
    ensures OrBits(a, b, width) == a + b
  {
    if low == 0 {
      OrZero(a, width);
    } else {
      OrAdds(a / 2, b / 2, low - 1, width - 1);
    }
  }

  lemma {:induction false} BelowPow2Fits(a: nat, width: nat)
    requires a < Pow2(width)
    ensures Fits(a, width)
  {
    if width > 0 {
      BelowPow2Fits(a / 2, width - 1);
    }
  }

  lemma EightDoublings(k: nat)
    ensures Pow2(k + 8) == 256 * Pow2(k)
  {
    assert Pow2(k + 4) == 2 * Pow2(k + 3) == 4 * Pow2(k + 2) == 8 * Pow2(k + 1) == 16 * Pow2(k);
    assert Pow2(k + 8) == 2 * Pow2(k + 7) == 4 * Pow2(k + 6) == 8 * Pow2(k + 5) == 16 * Pow2(k + 4);
  }

  lemma WidthOfWords(a: nat)
    ensures a < TWO32 ==> Fits(a, 32)
    ensures a < 256 ==> Fits(a, 8)
  {
    EightDoublings(0);
    EightDoublings(8);
    EightDoublings(16);
    EightDoublings(24);
    if a < TWO32 {
      BelowPow2Fits(a, 32);
    }
    if a < 256 {
      BelowPow2Fits(a, 8);
    }
  }

  lemma DoubleLowZero(a: nat, bits: nat)
    requires LowZero(a, bits)
    ensures LowZero(2 * a, bits + 1)
  {
  }

  lemma MultipleOf256(k: nat)
    ensures LowZero(256 * k, 8)
  {
    hide LowZero;
    NoBits(k);
    DoubleLowZero(k, 0);
    DoubleLowZero(2 * k, 1);
    DoubleLowZero(4 * k, 2);
    DoubleLowZero(8 * k, 3);
    DoubleLowZero(16 * k, 4);
    DoubleLowZero(32 * k, 5);
    DoubleLowZero(64 * k, 6);
    DoubleLowZero(128 * k, 7);
  }

  lemma NoBits(k: nat)
    ensures LowZero(k, 0)
  {
  }

  lemma Wrap(y: int) returns (k: int)
    ensures ToInt32(y) == y + TWO32 * k
  {
    k := -((y + TWO31) / TWO32);
  }

  lemma WrapIsPeriodic(y: int, k: int)
    ensures ToInt32(y + TWO32 * k) == ToInt32(y)
  {
  }

  /** Shifting in a byte appends it to the number read so far, modulo 2^32. */
  lemma ShiftInByte(x: int, b: Byte)
    ensures Or(ShiftLeft8(ToInt32(x)), b) == ToInt32(x * 256 + b)
  {
    var k := Wrap(x);
    assert ToInt32(ToInt32(x)) == ToInt32(x);
    WrapIsPeriodic(x * 256, 256 * k);
    assert ShiftLeft8(ToInt32(x)) == ToInt32(x * 256);
    var j := Wrap(x * 256);
    UnsignedReading(x * 256 + TWO32 * j, x, j, b);
  }

  lemma UnsignedReading(v: int, x: int, j: int, b: Byte)
    requires v == x * 256 + TWO32 * j
    ensures Or(v, b) == ToInt32(x * 256 + b)
  {
    hide ToInt32, ToUint32, OrBits, Fits, LowZero, Pow2, Or;
    var u, m := UnsignedMultiple(v, x, j);
    MultipleOf256(u / 256);
    WidthOfWords(u);
    WidthOfWords(b);
    OrAdds(u, b, 8, 32);
    OrOfByte(v, b);
    WrapIsPeriodic(x * 256 + b, m);
    assert u + b == x * 256 + b + TWO32 * m;
  }

  lemma OrOfByte(v: int, b: Byte)
    ensures Or(v, b) == ToInt32(OrBits(ToUint32(v), b, 32))
  {
    hide OrBits;
  }

  lemma UnsignedMultiple(v: int, x: int, j: int) returns (u: nat, m: int)
    requires v == x * 256 + TWO32 * j
    ensures u == ToUint32(v) == x * 256 + TWO32 * m && u == 256 * (u / 256)
  {
    var q := v / TWO32;
    u, m := ToUint32(v), j - q;
    assert u == v - TWO32 * q;
    assert u == 256 * (x + 0x100_0000 * m);
  }

  // ---------------------------------------------------------------- index bytes

  /** The four bytes of the index, most significant first. */
  function To32Bits(num: int): (bytes: seq<Byte>)
    ensures |bytes| == 4
  {
    var u := ToUint32(num);
    [u / 256 / 256 / 256, u / 256 / 256 % 256, u / 256 % 256, u % 256]
  }

  /** The number in the first k bytes; a missing byte reads as zero. */
  function BigEndian(bytes: seq<Byte>, k: nat): nat {
    if k == 0 then 0 else BigEndian(bytes, k - 1) * 256 + (if k <= |bytes| then bytes[k - 1] else 0)
  }

  method From32Bits(bytes: seq<Byte>) returns (value: int)
    ensures value == ToInt32(BigEndian(bytes, 4))
  {
    value := 0;
    var i := 0;
    while i < 4
      invariant 0 <= i <= 4
      invariant value == ToInt32(BigEndian(bytes, i))
    {
      var next := if i < |bytes| then bytes[i] else 0;
      ShiftInByte(BigEndian(bytes, i), next);
      value := Or(ShiftLeft8(value), next);
      i := i + 1;
    }
  }

  lemma FourBytes(bytes: seq<Byte>)
    requires |bytes| == 4
    ensures BigEndian(bytes, 4) ==
            ((bytes[0] as int * 256 + bytes[1] as int) * 256 + bytes[2] as int) * 256 + bytes[3] as int
  {
    assert BigEndian(bytes, 1) == bytes[0] as int;
    assert BigEndian(bytes, 2) == bytes[0] as int * 256 + bytes[1] as int;
    assert BigEndian(bytes, 3) == (bytes[0] as int * 256 + bytes[1] as int) * 256 + bytes[2] as int;
  }

  lemma BytesRoundTrip(num: int)
    ensures BigEndian(To32Bits(num), 4) == ToUint32(num)
  {
    hide BigEndian;
    FourBytes(To32Bits(num));
    var u := ToUint32(num);
    assert u / 256 / 256 * 256 + u / 256 % 256 == u / 256;
  }

  lemma Horner(h: int, d: Byte)
    ensures (h * 256 + d as int) / 256 == h && (h * 256 + d as int) % 256 == d as int
  {
  }

  lemma IndexRoundTrip(bytes: seq<Byte>)
    requires |bytes| == 4
    ensures To32Bits(ToInt32(BigEndian(bytes, 4))) == bytes
  {
    hide BigEndian;
    FourBytes(bytes);
    var h2 := bytes[0] as int * 256 + bytes[1] as int;
    var h3 := h2 * 256 + bytes[2] as int;
    var n := h3 * 256 + bytes[3] as int;
    Unsigned(n);
    Horner(h3, bytes[3]);
    Horner(h2, bytes[2]);
    Horner(bytes[0] as int, bytes[1]);
  }

  lemma Unsigned(n: int)
    requires 0 <= n < TWO32
    ensures ToUint32(ToInt32(n)) == n
  {
  }

  // ---------------------------------------------------------------- identifiers

  /** bytes.subarray(start, end): a negative bound counts from the end, and bounds are clamped. */
  function Subarray(bytes: seq<Byte>, start: int, end: int): seq<Byte> {
    var lo := Clamp(if start < 0 then |bytes| + start else start, |bytes|);
    var hi := Clamp(if end < 0 then |bytes| + end else end, |bytes|);
    if lo <= hi then bytes[lo..hi] else []
  }

  function Clamp(x: int, limit: nat): (r: nat)
    ensures r <= limit
  {
    if x < 0 then 0 else if x > limit then limit else x
  }

  function HexDigit(d: int): char
    requires 0 <= d < 16
  {
    if d < 10 then '0' + d as char else 'a' + (d - 10) as char
  }

  function ToHexString(bytes: seq<Byte>): string {
    if bytes == [] then "" else [HexDigit(bytes[0] / 16), HexDigit(bytes[0] % 16)] + ToHexString(bytes[1..])
  }

  lemma HexOfByte(x: Byte, y: Byte)
    ensures HexDigit(x / 16) == HexDigit(y / 16) && HexDigit(x % 16) == HexDigit(y % 16) ==> x == y
  {
    HexDigitsDiffer(x / 16, y / 16);
    HexDigitsDiffer(x % 16, y % 16);
    hide HexDigit;
  }

  lemma HexDigitsDiffer(c: int, d: int)
    requires 0 <= c < 16 && 0 <= d < 16
    ensures HexDigit(c) == HexDigit(d) <==> c == d
  {
  }

  lemma {:induction false} HexIsInjective(a: seq<Byte>, b: seq<Byte>)
    ensures ToHexString(a) == ToHexString(b) <==> a == b
  {
    if a != [] && b != [] {
      hide HexDigit;
      var x, y := ToHexString(a), ToHexString(b);
      HexIsInjective(a[1..], b[1..]);
      HexOfByte(a[0], b[0]);
      assert x[2..] == ToHexString(a[1..]) && y[2..] == ToHexString(b[1..]);
      assert a == [a[0]] + a[1..] && b == [b[0]] + b[1..];
      assert x == y ==> x[0] == y[0] && x[1] == y[1];
    }
  }

  /** The text has two lower-case digits for every byte, the high one first. */
  lemma {:induction false} HexOf(bytes: seq<Byte>, i: nat)
    requires i < |bytes|
    ensures |ToHexString(bytes)| == 2 * |bytes|
    ensures ToHexString(bytes)[2 * i] == "0123456789abcdef"[bytes[i] / 16]
    ensures ToHexString(bytes)[2 * i + 1] == "0123456789abcdef"[bytes[i] % 16]
  {
    var rest := ToHexString(bytes[1..]);
    assert ToHexString(bytes) == [HexDigit(bytes[0] / 16), HexDigit(bytes[0] % 16)] + rest;
    if |bytes| > 1 {
      HexOf(bytes[1..], if i == 0 then 0 else i - 1);
    }
  }

  /** What lies between two bounds, either of which may count from the end. */
  lemma SubarrayAt(bytes: seq<Byte>, start: int, end: int)
    requires 0 <= start && 0 <= end
    ensures start <= end <= |bytes| ==> Subarray(bytes, start, end) == bytes[start..end]
    ensures 0 < end && start + end <= |bytes| ==> Subarray(bytes, start, -end) == bytes[start..|bytes| - end]
    ensures 0 < start <= |bytes| ==> Subarray(bytes, -start, |bytes|) == bytes[|bytes| - start..]
    ensures start > |bytes| ==> Subarray(bytes, -start, |bytes|) == bytes && Subarray(bytes, 0, start) == bytes
    ensures 0 < end && start + end > |bytes| ==> Subarray(bytes, start, -end) == []
  {
  }

  datatype Token = Token(index: int, canister: seq<Byte>)

  function Encode(canister: seq<Byte>, index: int): seq<Byte> {
    PREFIX + canister + To32Bits(index)
  }

  method Decode(tid: seq<Byte>) returns (r: Option<Token>)
    ensures r.Some? <==> PREFIX <= tid
    ensures r.Some? <==> |tid| >= 4 && tid[0] == 10 && tid[1] == 't' as int && tid[2] == 'i' as int && tid[3] == 'd' as int
    ensures r.Some? ==> r.value == Decoded(tid)
  {
    var padding := Subarray(tid, 0, 4);
    HexIsInjective(padding, PREFIX);
    if ToHexString(padding) != ToHexString(PREFIX) {
      return None;
    }
    var index := From32Bits(Subarray(tid, -4, |tid|));
    return Some(Token(index, Subarray(tid, 4, -4)));
  }

  /** What a well-prefixed identifier decodes to. */
  function Decoded(tid: seq<Byte>): Token {
    Token(ToInt32(BigEndian(Subarray(tid, -4, |tid|), 4)), Subarray(tid, 4, -4))
  }

  /**
   * Every canister and index can be read back from their identifier, the index as a signed 32-bit integer:
   * it is the same index exactly from -2^31 to 2^31 - 1.
   */
  lemma DecodeOfEncode(canister: seq<Byte>, index: int)
    ensures PREFIX <= Encode(canister, index)
    ensures Decoded(Encode(canister, index)) == Token(ToInt32(index), canister)
    ensures ToInt32(index) == index <==> -TWO31 <= index < TWO31
    ensures TWO31 <= index < TWO32 ==> ToInt32(index) == index - TWO32
  {
    hide To32Bits, BigEndian;
    var tid := Encode(canister, index);
    assert Subarray(tid, -4, |tid|) == tid[|tid| - 4..] == To32Bits(index);
    assert Subarray(tid, 4, -4) == tid[4..|tid| - 4] == canister;
    BytesRoundTrip(index);
    var k := index / TWO32;
    assert ToUint32(index) == index + TWO32 * -k;
    WrapIsPeriodic(index, -k);
  }

  /**
   * A well-prefixed identifier is the encoding of what it decodes to exactly when it has at least eight
   * bytes; a shorter one is accepted, but its index bytes overlap the prefix.
   */
  lemma EncodeOfDecode(tid: seq<Byte>)
    requires PREFIX <= tid
    ensures Encode(Decoded(tid).canister, Decoded(tid).index) == tid <==> |tid| >= 8
  {
    if |tid| >= 8 {
      hide To32Bits, BigEndian;
      var last := tid[|tid| - 4..];
      assert Subarray(tid, -4, |tid|) == last;
      IndexRoundTrip(last);
      assert tid == PREFIX + tid[4..|tid| - 4] + last;
    } else {
      assert |Encode(Decoded(tid).canister, Decoded(tid).index)| >= 8;
    }
  }
}
