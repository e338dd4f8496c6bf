/** The numbers that float64 bit patterns stand for (IEEE 754, binary64). */
module Floats {
  import opened Words

  const HIDDEN_BIT: int := 0x10_0000_0000_0000
  const INFINITY_BITS: int := 0x7FF0_0000_0000_0000

  /** The number a float64 bit pattern stands for. Infinities and NaNs, which no
      real is, read 0. */
  function FloatValue(bits: Word): real {
    var exponent, mantissa := bits / HIDDEN_BIT % 2048, bits % HIDDEN_BIT;
    var magnitude :=
      if exponent == 2047 then 0.0
      else if exponent == 0 then mantissa as real * PowerOfTwo(-1074)
      else (HIDDEN_BIT + mantissa) as real * PowerOfTwo(exponent - 1075);
    if bits < TWO_TO_63 then magnitude else -magnitude
  }

  function PowerOfTwo(k: int): real
    decreases if k < 0 then -k else k
  {
    if k == 0 then 1.0 else if k > 0 then 2.0 * PowerOfTwo(k - 1) else PowerOfTwo(k + 1) / 2.0
  }

  lemma {:induction false} PowerDoubles(k: int)
    ensures PowerOfTwo(k + 1) == 2.0 * PowerOfTwo(k) && PowerOfTwo(k) > 0.0
    decreases if k < 0 then -k else k
  {
    if k > 0 {
      PowerDoubles(k - 1);
    } else if k < 0 {
      PowerDoubles(k + 1);
    }
  }

  // ---------------------------------------------------------------- what pins the numbers

  /** The top bit is the sign. */
  lemma FloatSign(bits: Word)
    requires bits >= 0x8000_0000_0000_0000
    ensures FloatValue(bits) == -FloatValue(bits - 0x8000_0000_0000_0000)
  {
    hide PowerOfTwo;
    var low := bits - TWO_TO_63;
    var q, r := low / HIDDEN_BIT, low % HIDDEN_BIT;
    assert low == HIDDEN_BIT * q + r && bits == HIDDEN_BIT * (q + 2048) + r && q < 2048;
    QuotientUnique(bits, HIDDEN_BIT, q + 2048, r);
    assert (q + 2048) % 2048 == q == q % 2048;
  }

  lemma {:induction false} ScaledPower(n: nat, k: int)
    ensures Pow2(n) as real * PowerOfTwo(k) == PowerOfTwo(k + n)
  {
    if n > 0 {
      ScaledPower(n - 1, k);
      PowerDoubles(k + n - 1);
      assert Pow2(n) as real == 2.0 * Pow2(n - 1) as real;
    }
  }

  lemma HiddenBit()
    ensures Pow2(52) == HIDDEN_BIT
  {
    Pow2Values();
    Pow2Add(32, 20); Pow2Add(16, 4);
    assert Pow2(4) == 16;
  }

  lemma FloatOne()
    ensures FloatValue(0) == 0.0 && FloatValue(0x3FF0_0000_0000_0000) == 1.0
  {
    HiddenBit(); ScaledPower(52, -52);
  }

  /** A pattern is followed by the number one unit in the last place above: 2^-1074
      below and in the first normal binade, twice as much in every next one. */
  lemma FloatNext(bits: Word)
    requires bits + 1 < 0x7FF0_0000_0000_0000
    ensures var e := bits / 0x10_0000_0000_0000;
            FloatValue(bits + 1) == FloatValue(bits) + PowerOfTwo(if e == 0 then -1074 else e - 1075)
  {
    hide PowerOfTwo;
    var e, m := bits / HIDDEN_BIT, bits % HIDDEN_BIT;
    assert e < 2047 && bits == e * HIDDEN_BIT + m;
    var unit := PowerOfTwo(if e == 0 then -1074 else e - 1075);
    if m + 1 < HIDDEN_BIT {
      assert (bits + 1) / HIDDEN_BIT == e && (bits + 1) % HIDDEN_BIT == m + 1;
      assert (m + 1) as real == m as real + 1.0;
    } else {
      assert (bits + 1) / HIDDEN_BIT == e + 1 && (bits + 1) % HIDDEN_BIT == 0;
      PowerDoubles(e - 1075);
    }
  }

  /** One more in the exponent field doubles a normal number. */
  lemma FloatDoubles(bits: Word)
    requires 0x10_0000_0000_0000 <= bits < 0x7FE0_0000_0000_0000
    ensures FloatValue(bits + 0x10_0000_0000_0000) == 2.0 * FloatValue(bits)
  {
    hide PowerOfTwo;
    var e := bits / HIDDEN_BIT;
    assert (bits + HIDDEN_BIT) / HIDDEN_BIT == e + 1 && (bits + HIDDEN_BIT) % HIDDEN_BIT == bits % HIDDEN_BIT;
    PowerDoubles(e - 1075);
  }

  /** The finite numbers from zero on are in the order of their patterns. */
  lemma {:induction false} FloatIncreases(a: Word, b: Word)
    requires a < b < 0x7FF0_0000_0000_0000
    ensures FloatValue(a) < FloatValue(b)
    decreases b - a
  {
    hide FloatValue, PowerOfTwo;
    var e := (b - 1) / 0x10_0000_0000_0000;
    FloatNext(b - 1);
    PowerDoubles(if e == 0 then -1074 else e - 1075);
    if a < b - 1 {
      FloatIncreases(a, b - 1);
    }
  }
}
