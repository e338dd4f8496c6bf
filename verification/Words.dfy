/** Fixed-width machine words as bounded integers: 64-bit wrap-around, shifts,
    XOR, leading and trailing zeros, bit strings (most significant bit first)
    and big-endian byte strings. */
module Words {

  const TWO_TO_63: int := 0x8000_0000_0000_0000
  const TWO_TO_64: int := 0x1_0000_0000_0000_0000
  const TWO_TO_32: int := 0x1_0000_0000

  /** uint64, and the IEEE 754 bit pattern of a float64. */
  type Word = x: int | 0 <= x < TWO_TO_64
  /** int64. */
  type Int64 = x: int | -TWO_TO_63 <= x < TWO_TO_63
  type Word32 = x: int | 0 <= x < TWO_TO_32
  type Byte = x: int | 0 <= x < 256

  /** One measurement: a timestamp and the bit pattern of its float64 value. */
  datatype Point = Point(ts: Word, bits: Word)

  // ---------------------------------------------------------------- int64

  /** int64(w) */
  function ToSigned(w: Word): Int64 {
    if w < TWO_TO_63 then w else w - TWO_TO_64
  }

  /** uint64(i) */
  function ToWord(i: Int64): Word {
    if i < 0 then i + TWO_TO_64 else i
  }

  /** The int64 that a sum or difference of two int64 values wraps to. */
  function Wrap64(x: int): Int64
    requires -TWO_TO_64 <= x < TWO_TO_64
  {
    if x >= TWO_TO_63 then x - TWO_TO_64 else if x < -TWO_TO_63 then x + TWO_TO_64 else x
  }

  function Add64(a: Int64, b: Int64): Int64 {
    Wrap64(a + b)
  }

  function Sub64(a: Int64, b: Int64): Int64 {
    Wrap64(a - b)
  }

  /** What the wrapping operations return is an int64 congruent to the exact result. */
  lemma WrapsAround(a: Int64, b: Int64, w: Word)
    ensures (Add64(a, b) - (a + b)) % TWO_TO_64 == 0 && (Sub64(a, b) - (a - b)) % TWO_TO_64 == 0
    ensures (ToSigned(w) - w) % TWO_TO_64 == 0 && (ToWord(a) - a) % TWO_TO_64 == 0
  {
  }

  // ---------------------------------------------------------------- powers, shifts

  function Pow2(n: nat): (p: nat)
    ensures p > 0
  {
    if n == 0 then 1 else 2 * Pow2(n - 1)
  }

  lemma Pow2Values()
    ensures Pow2(8) == 256 && Pow2(16) == 0x1_0000
    ensures Pow2(32) == TWO_TO_32 && Pow2(64) == TWO_TO_64
  {
    assert Pow2(4) == 16;
    Pow2Add(4, 4); Pow2Add(8, 8); Pow2Add(16, 16); Pow2Add(32, 32);
  }

  lemma {:induction false} Pow2Add(m: nat, n: nat)
    ensures Pow2(m + n) == Pow2(m) * Pow2(n)
  {
    if m > 0 {
      Pow2Add(m - 1, n);
      assert Pow2(m + n) == 2 * Pow2(m - 1 + n);
    }
  }

  /** v >> k */
  function Shr(v: nat, k: nat): nat {
    if k == 0 then v else Shr(v / 2, k - 1)
  }

  /** v >> k on uint64. */
  function Shr64(v: Word, k: nat): Word {
    ShrStep(v, k);
    Shr(v, k)
  }

  /** v << k on unbounded integers. */
  function Shl(v: nat, k: nat): nat
    decreases k
  {
    if k == 0 then v else Shl(2 * v, k - 1)
  }

  /** v << k on uint64: bits shifted past the top are lost, and a shift by 64
      or more (as a wrapped-around shift count is) gives zero. */
  function Shl64(v: Word, k: nat): Word {
    if k >= 64 then 0 else Shl(v, k) % TWO_TO_64
  }

  lemma Shl64Exact(v: Word, k: nat)
    requires k < 64 && Shl(v, k) < TWO_TO_64
    ensures Shl64(v, k) == Shl(v, k)
  {
  }

  lemma {:induction false} ShrStep(v: nat, k: nat)
    ensures Shr(v, k) / 2 == Shr(v, k + 1)
    ensures Shr(v, k) <= v
  {
    if k > 0 {
      ShrStep(v / 2, k - 1);
    }
  }

  lemma {:induction false} ShlIsMultiply(v: nat, k: nat)
    ensures Shl(v, k) == v * Pow2(k)
    decreases k
  {
    if k > 0 {
      ShlIsMultiply(2 * v, k - 1);
      assert 2 * v * Pow2(k - 1) == v * (2 * Pow2(k - 1));
    }
  }

  /** The uint64 shifts in numbers. */
  lemma ShiftsAre(v: Word, k: nat)
    ensures Shl64(v, k) == v * Pow2(k) % TWO_TO_64
    ensures Shr64(v, k) == v / Pow2(k)
  {
    hide Pow2, Shl, Shr;
    ShlIsMultiply(v, k);
    ShrIsDivide(v, k);
    if k >= 64 { ShiftedOver(v, k); }
  }

  lemma ShiftedOver(v: nat, k: nat)
    requires k >= 64
    ensures v * Pow2(k) % TWO_TO_64 == 0
  {
    hide Pow2;
    Pow2Values(); Pow2Add(k - 64, 64);
    var p := Pow2(k - 64);
    assert v * (p * TWO_TO_64) == v * p * TWO_TO_64;
    MultipleRemainder(v * p, TWO_TO_64);
  }

  lemma MultipleRemainder(a: nat, m: nat)
    requires m > 0
    ensures a * m % m == 0
  {
    assert a * m == m * a + 0;
    QuotientUnique(a * m, m, a, 0);
  }

  // ---------------------------------------------------------------- bit length

  function BitLen(x: nat): nat {
    if x == 0 then 0 else 1 + BitLen(x / 2)
  }

  lemma {:induction false} BitLenBound(x: nat, n: nat)
    ensures BitLen(x) <= n <==> x < Pow2(n)
  {
    if x != 0 && n != 0 {
      BitLenBound(x / 2, n - 1);
    }
  }

  lemma BitLenWord(x: Word)
    ensures BitLen(x) <= 64
  {
    Pow2Values();
    BitLenBound(x, 64);
  }

  function LeadingZeros(x: Word): (n: nat)
    ensures n + BitLen(x) == 64
  {
    BitLenWord(x);
    64 - BitLen(x)
  }

  function TrailingZeros(x: nat): (n: nat)
    requires x > 0
    ensures n < BitLen(x)
  {
    if x % 2 == 1 then 0 else 1 + TrailingZeros(x / 2)
  }

  lemma {:induction false} BitLenShr(x: nat, k: nat)
    requires k <= BitLen(x)
    ensures BitLen(Shr(x, k)) == BitLen(x) - k
  {
    if k > 0 {
      BitLenShr(x / 2, k - 1);
    }
  }

  lemma {:induction false} BitLenShl(x: nat, k: nat)
    requires x > 0
    ensures BitLen(Shl(x, k)) == BitLen(x) + k
    decreases k
  {
    if k > 0 {
      BitLenShl(2 * x, k - 1);
    }
  }

  /** Shifting right inside the trailing zeros loses nothing. */
  lemma {:induction false} ShrShl(x: nat, k: nat)
    requires x > 0 && k <= TrailingZeros(x)
    ensures Shl(Shr(x, k), k) == x
  {
    if k > 0 {
      ShrShl(x / 2, k - 1);
      ShlDouble(Shr(x / 2, k - 1), k - 1);
    }
  }

  lemma {:induction false} ShlDouble(v: nat, k: nat)
    ensures Shl(2 * v, k) == 2 * Shl(v, k)
    decreases k
  {
    if k > 0 {
      ShlDouble(2 * v, k - 1);
    }
  }

  lemma {:induction false} ShlAdd(v: nat, j: nat, k: nat)
    ensures Shl(Shl(v, j), k) == Shl(v, j + k)
    decreases j
  {
    if j > 0 {
      ShlAdd(2 * v, j - 1, k);
    }
  }

  // ---------------------------------------------------------------- xor

  function XorNat(a: nat, b: nat): nat {
    if a == 0 && b == 0 then 0
    else 2 * XorNat(a / 2, b / 2) + if a % 2 == b % 2 then 0 else 1
  }

  lemma {:induction false} XorBound(a: nat, b: nat, n: nat)
    requires a < Pow2(n) && b < Pow2(n)
    ensures XorNat(a, b) < Pow2(n)
  {
    if a != 0 || b != 0 {
      XorBound(a / 2, b / 2, n - 1);
    }
  }

  /** a ^ b */
  function Xor(a: Word, b: Word): Word {
    Pow2Values();
    XorBound(a, b, 64);
    XorNat(a, b)
  }

  lemma XorHalves(a: nat, b: nat)
    ensures XorNat(a, b) / 2 == XorNat(a / 2, b / 2)
    ensures XorNat(a, b) % 2 == 0 <==> a % 2 == b % 2
  {
  }

  lemma {:induction false} XorNatCancel(a: nat, b: nat)
    ensures XorNat(b, XorNat(a, b)) == a
    ensures XorNat(a, b) == 0 <==> a == b
  {
    if a != 0 || b != 0 {
      XorHalves(a, b);
      XorNatCancel(a / 2, b / 2);
      XorHalves(b, XorNat(a, b));
    }
  }

  lemma {:induction false} XorNatInjective(p: nat, x: nat, y: nat)
    requires XorNat(p, x) == XorNat(p, y)
    ensures x == y
  {
    if p != 0 || x != 0 || y != 0 {
      XorHalves(p, x); XorHalves(p, y);
      XorNatInjective(p / 2, x / 2, y / 2);
    }
  }

  lemma {:induction false} XorZero(a: nat)
    ensures XorNat(a, 0) == a && XorNat(0, a) == a
  {
    if a != 0 {
      XorZero(a / 2);
    }
  }

  lemma {:induction false} XorCommutes(a: nat, b: nat)
    ensures XorNat(a, b) == XorNat(b, a)
  {
    if a != 0 || b != 0 {
      XorCommutes(a / 2, b / 2);
    }
  }

  // ---------------------------------------------------------------- single bits

  /** Bit j of v, counted from the least significant. */
  predicate BitOf(v: nat, j: nat) {
    v / Pow2(j) % 2 == 1
  }

  lemma DivideTwice(v: nat, m: nat)
    requires m > 0
    ensures v / 2 / m == v / (2 * m)
  {
    var q := v / (2 * m);
    assert v == 2 * m * q + v % (2 * m);
    var r := v % (2 * m);
    assert 2 * m * q == 2 * (m * q);
    assert v / 2 == m * q + r / 2 && 0 <= r / 2 < m;
    QuotientUnique(v / 2, m, q, r / 2);
  }

  lemma QuotientUnique(v: nat, m: nat, q: nat, r: nat)
    requires v == m * q + r && r < m
    ensures v / m == q && v % m == r
  {
    var d := v / m - q;
    assert v == m * (v / m) + v % m;
    assert m * d == r - v % m;
    assert (d >= 1 ==> m * d >= m) && (d <= -1 ==> m * d <= 0 - m);
  }

  lemma {:induction false} ShrIsDivide(v: nat, k: nat)
    ensures Shr(v, k) == v / Pow2(k)
  {
    if k > 0 {
      ShrIsDivide(v / 2, k - 1);
      DivideTwice(v, Pow2(k - 1));
    }
  }

  lemma {:induction false} XorShr(a: nat, b: nat, k: nat)
    ensures Shr(XorNat(a, b), k) == XorNat(Shr(a, k), Shr(b, k))
  {
    if k > 0 {
      XorHalves(a, b);
      XorShr(a / 2, b / 2, k - 1);
    }
  }

  /** a ^ b has a bit exactly where one of a and b has it and the other has not. */
  lemma XorBit(a: nat, b: nat, j: nat)
    ensures BitOf(XorNat(a, b), j) <==> BitOf(a, j) != BitOf(b, j)
  {
    hide XorNat, Pow2, Shr;
    XorShr(a, b, j);
    ShrIsDivide(XorNat(a, b), j); ShrIsDivide(a, j); ShrIsDivide(b, j);
    XorHalves(Shr(a, j), Shr(b, j));
  }

  /** Numbers of n bits with the same bits are the same. */
  lemma {:induction false} BitsDecide(a: nat, b: nat, n: nat)
    requires a < Pow2(n) && b < Pow2(n) && forall j | 0 <= j < n :: BitOf(a, j) == BitOf(b, j)
    ensures a == b
  {
    if n > 0 {
      forall j | 0 <= j < n - 1 ensures BitOf(a / 2, j) == BitOf(b / 2, j) {
        DivideTwice(a, Pow2(j)); DivideTwice(b, Pow2(j));
        assert BitOf(a, j + 1) == BitOf(b, j + 1) && Pow2(j + 1) == 2 * Pow2(j);
      }
      BitsDecide(a / 2, b / 2, n - 1);
      assert BitOf(a, 0) == BitOf(b, 0) && Pow2(0) == 1;
    }
  }

  /** x >> k is zero exactly when x has no more than k bits. */
  lemma {:induction false} ShrZero(x: nat, k: nat)
    ensures Shr(x, k) == 0 <==> BitLen(x) <= k
  {
    if k > 0 {
      ShrZero(x / 2, k - 1);
    }
  }

  /** At least k of the 64 bits are leading zeros exactly when the others hold x. */
  lemma LeadingZerosAtLeast(x: Word, k: nat)
    requires k <= 64
    ensures LeadingZeros(x) >= k <==> x < Pow2(64 - k)
  {
    BitLenBound(x, 64 - k);
  }

  lemma RemainderTwice(v: nat, m: nat)
    requires m > 0
    ensures v % (2 * m) == 2 * (v / 2 % m) + v % 2
  {
    var q, r := v / 2 / m, v / 2 % m;
    assert v / 2 == m * q + r && v == 2 * (v / 2) + v % 2;
    assert 2 * (m * q) == 2 * m * q;
    QuotientUnique(v, 2 * m, q, 2 * r + v % 2);
  }

  /** At least k bits are trailing zeros exactly when 2^k divides x. */
  lemma {:induction false} TrailingZerosAtLeast(x: nat, k: nat)
    requires x > 0
    ensures TrailingZeros(x) >= k <==> x % Pow2(k) == 0
  {
    if k > 0 {
      RemainderTwice(x, Pow2(k - 1));
      if x % 2 == 0 {
        TrailingZerosAtLeast(x / 2, k - 1);
      }
    }
  }

  // ---------------------------------------------------------------- bit strings

  /** The lowest n bits of v, most significant first. */
  function Bits(v: nat, n: nat): (s: seq<bool>)
    ensures |s| == n
  {
    if n == 0 then [] else Bits(v / 2, n - 1) + [v % 2 == 1]
  }

  /** The number a bit string spells, most significant bit first. */
  function Value(s: seq<bool>): nat {
    if s == [] then 0
    else 2 * Value(s[..|s| - 1]) + if s[|s| - 1] then 1 else 0
  }

  /** v modulo 2^n, one bit at a time. */
  function Low(v: nat, n: nat): nat {
    if n == 0 then 0 else 2 * Low(v / 2, n - 1) + v % 2
  }

  lemma {:induction false} LowExact(v: nat, n: nat)
    requires BitLen(v) <= n
    ensures Low(v, n) == v
  {
    if n > 0 {
      LowExact(v / 2, n - 1);
    }
  }

  lemma {:induction false} ValueOfBits(v: nat, n: nat)
    ensures Value(Bits(v, n)) == Low(v, n)
  {
    if n > 0 {
      ValueOfBits(v / 2, n - 1);
      assert Bits(v, n)[..n - 1] == Bits(v / 2, n - 1);
    }
  }

  lemma BitsExact(v: nat, n: nat)
    requires BitLen(v) <= n
    ensures Value(Bits(v, n)) == v
  {
    LowExact(v, n);
    ValueOfBits(v, n);
  }

  lemma {:induction false} ValueBound(s: seq<bool>)
    ensures Value(s) < Pow2(|s|)
  {
    if s != [] {
      ValueBound(s[..|s| - 1]);
    }
  }

  lemma {:induction false} BitsOfValue(s: seq<bool>)
    ensures Bits(Value(s), |s|) == s
  {
    if s != [] {
      BitsOfValue(s[..|s| - 1]);
      assert s == s[..|s| - 1] + [s[|s| - 1]];
    }
  }

  /** Bit i (from the top) of the n lowest bits of v. */
  lemma {:induction false} BitAt(v: nat, n: nat, i: nat)
    requires i < n
    ensures Bits(v, n)[i] == (Shr(v, n - 1 - i) % 2 == 1)
  {
    if i < n - 1 {
      BitAt(v / 2, n - 1, i);
    }
  }

  /** The n lowest bits of v, the most significant first. */
  lemma BitsAre(v: nat, n: nat, i: nat)
    requires i < n
    ensures Bits(v, n)[i] <==> BitOf(v, n - 1 - i)
  {
    BitAt(v, n, i);
    ShrIsDivide(v, n - 1 - i);
  }

  function Zeros(n: nat): (s: seq<bool>)
    ensures |s| == n
  {
    if n == 0 then [] else Zeros(n - 1) + [false]
  }

  // ---------------------------------------------------------------- big-endian bytes

  /** binary.BigEndian.PutUintN: the n lowest bytes of v, highest first. */
  function BigEndian(v: nat, n: nat): (s: seq<Byte>)
    ensures |s| == n
  {
    if n == 0 then [] else BigEndian(v / 256, n - 1) + [v % 256]
  }

  /** Byte i of the n lowest bytes of v, from the highest. */
  lemma {:induction false} BigEndianByte(v: nat, n: nat, i: nat)
    requires i < n
    ensures BigEndian(v, n)[i] == v / Pow2(8 * (n - 1 - i)) % 256
  {
    if i < n - 1 {
      BigEndianByte(v / 256, n - 1, i);
      var k := n - 2 - i;
      Pow2Bytes(k + 1);
      Divide256(v, Pow2(8 * k));
    } else {
      assert Pow2(0) == 1;
    }
  }

  lemma Divide256(v: nat, m: nat)
    requires m > 0
    ensures v / 256 / m == v / (256 * m)
  {
    var q := v / (256 * m);
    var r := v % (256 * m);
    assert v == 256 * m * q + r && 256 * m * q == 256 * (m * q);
    assert v / 256 == m * q + r / 256 && 0 <= r / 256 < m;
    QuotientUnique(v / 256, m, q, r / 256);
  }

  /** binary.BigEndian.UintN */
  function FromBigEndian(s: seq<Byte>): nat {
    if s == [] then 0 else 256 * FromBigEndian(s[..|s| - 1]) + s[|s| - 1]
  }

  lemma {:induction false} Pow2Bytes(n: nat)
    requires n > 0
    ensures Pow2(8 * n) == 256 * Pow2(8 * (n - 1))
  {
    Pow2Add(8, 8 * (n - 1));
    assert Pow2(8) == 256;
  }

  lemma {:induction false} BigEndianRoundTrip(v: nat, n: nat)
    requires v < Pow2(8 * n)
    ensures FromBigEndian(BigEndian(v, n)) == v
  {
    if n > 0 {
      Pow2Bytes(n);
      BigEndianRoundTrip(v / 256, n - 1);
      assert BigEndian(v, n)[..n - 1] == BigEndian(v / 256, n - 1);
    }
  }

  lemma {:induction false} FromBigEndianBound(s: seq<Byte>)
    ensures FromBigEndian(s) < Pow2(8 * |s|)
  {
    if s != [] {
      FromBigEndianBound(s[..|s| - 1]);
      Pow2Bytes(|s|);
    }
  }

  lemma {:induction false} FromBigEndianInverse(s: seq<Byte>)
    ensures BigEndian(FromBigEndian(s), |s|) == s
  {
    if s != [] {
      FromBigEndianInverse(s[..|s| - 1]);
      assert s == s[..|s| - 1] + [s[|s| - 1]];
    }
  }

  /** The widths the file and frame formats use. */
  lemma FieldWidths()
    ensures Pow2(8 * 2) == 0x1_0000 && Pow2(8 * 4) == TWO_TO_32 && Pow2(8 * 8) == TWO_TO_64
  {
    Pow2Values();
  }

  function Word32At(s: seq<Byte>): (v: Word32)
    requires |s| == 4
  {
    FieldWidths(); FromBigEndianBound(s);
    FromBigEndian(s)
  }

  function WordAt(s: seq<Byte>): (v: Word)
    requires |s| == 8
  {
    FieldWidths(); FromBigEndianBound(s);
    FromBigEndian(s)
  }

  lemma Word32RoundTrip(v: Word32)
    ensures Word32At(BigEndian(v, 4)) == v
  {
    FieldWidths(); BigEndianRoundTrip(v, 4);
  }

  lemma WordRoundTrip(v: Word)
    ensures WordAt(BigEndian(v, 8)) == v
  {
    FieldWidths(); BigEndianRoundTrip(v, 8);
  }
}
