/** What one code means: decoding the code of a delta of delta or of an XOR
    consumes exactly that code, and returns its value exactly when the code's
    fields are wide enough. */
module CodecProofs {
  import opened Words
  import opened BitStream
  import opened Codec

  // ---------------------------------------------------------------- one timestamp code

  predicate FitsInt32(dod: Int64) {
    -0x8000_0000 <= dod < 0x8000_0000
  }

  lemma TwoPowers(n: nat)
    requires 0 < n < 64
    ensures Pow2(n) == 2 * Pow2(n - 1)
    ensures Pow2(n) * Pow2(64 - n) == TWO_TO_64 && Pow2(n - 1) * Pow2(64 - n) == TWO_TO_63
  {
    Pow2Add(n, 64 - n); Pow2Values();
    Double(Pow2(n - 1), Pow2(64 - n));
  }

  lemma Double(a: nat, b: nat)
    ensures 2 * a * b == 2 * (a * b)
  {
  }

  lemma Distribute(a: int, b: int, p: int)
    ensures (a - b) * p == a * p - b * p
  {
  }

  lemma SignExtendValue(v: Word, n: nat)
    requires 0 < n < 64 && v < Pow2(n)
    ensures SignExtend64(v, n) == if v < Pow2(n - 1) then v else v - Pow2(n)
  {
    var k := 64 - n;
    TwoPowers(n);
    ShlIsMultiply(v, k);
    ScaledOrder(v, Pow2(n), Pow2(k)); ScaledOrder(v, Pow2(n - 1), Pow2(k));
    assert Shl64(v, k) == v * Pow2(k);
    Distribute(v, Pow2(n), Pow2(k));
    var signed := if v < Pow2(n - 1) then v else v - Pow2(n);
    assert ToSigned(Shl64(v, k)) == signed * Pow2(k);
    SarMultiple(signed, k);
  }

  lemma ScaledOrder(a: nat, b: nat, p: nat)
    requires p > 0
    ensures a < b <==> a * p < b * p
  {
    if a < b {
      assert (b - a) * p > 0;
    } else {
      assert (a - b) * p >= 0;
    }
  }

  lemma ReadSignedField(v: nat, n: nat, rest: seq<bool>)
    requires 0 < n < 64 && v < Pow2(n)
    ensures v < TWO_TO_64
    ensures ReadSigned(Bits(v, n) + rest, n) == Parsed(if v < Pow2(n - 1) then v else v - Pow2(n), rest)
  {
    PowMonotone(n, 64); Pow2Values();
    BitLenBound(v, n); BitsExact(v, n);
    var s := Bits(v, n) + rest;
    assert s[..n] == Bits(v, n) && s[n..] == rest;
    SignExtendValue(v, n);
  }

  /** What comes back for a delta of delta: itself, or its low bits. */
  function Narrowed(dod: Int64): Int64 {
    if FitsInt32(dod) then dod
    else if dod == -TWO_TO_63 then 0
    else
      var low := ToWord(dod) % TWO_TO_32;
      if low < 0x8000_0000 then low else low - TWO_TO_32
  }

  /** The low 32 bits as a signed number, also of the least int64. */
  lemma NarrowedExact(dod: Int64)
    ensures Narrowed(dod) == dod <==> FitsInt32(dod)
    ensures -0x8000_0000 <= Narrowed(dod) < 0x8000_0000 && (Narrowed(dod) - dod) % TWO_TO_32 == 0
  {
    if dod != -TWO_TO_63 && !FitsInt32(dod) {
      LowHalf(dod);
    }
  }

  /** The low 32 bits and the number differ by whole multiples of 2^32. */
  lemma LowHalf(dod: Int64)
    ensures var low := ToWord(dod) % TWO_TO_32;
            (low - dod) % TWO_TO_32 == 0 && (low - TWO_TO_32 - dod) % TWO_TO_32 == 0
  {
    var w := ToWord(dod);
    var q := w / TWO_TO_32;
    assert w == TWO_TO_32 * q + w % TWO_TO_32;
    if dod < 0 {
      assert w % TWO_TO_32 - dod == TWO_TO_32 * (TWO_TO_32 - q);
    } else {
      assert w % TWO_TO_32 - dod == TWO_TO_32 * (0 - q);
    }
  }

  /** The code of dod is the tag of its tier followed by the low n bits of dod. */
  lemma FieldOf(dod: Int64, n: nat, rest: seq<bool>)
    requires n in {7, 9, 12, 32}
    requires n == 32 || dod == -TWO_TO_63 || -(Pow2(n - 1) as int) <= dod < Pow2(n - 1)
    requires n == 32 ==> dod != -TWO_TO_63
    ensures ReadSigned(Bits(ToWord(dod) % Pow2(n), n) + rest, n) == Parsed(Narrowed(dod), rest)
  {
    FieldSizes(n);
    ReadSignedField(ToWord(dod) % Pow2(n), n, rest);
    if n == 7 { Residue128(dod); }
    else if n == 9 { Residue512(dod); }
    else if n == 12 { Residue4096(dod); }
    else if FitsInt32(dod) { Residue32(dod); }
  }

  lemma FieldSizes(n: nat)
    requires n in {7, 9, 12, 32}
    ensures Pow2(n) == 2 * Pow2(n - 1)
    ensures Pow2(n) == if n == 7 then 128 else if n == 9 then 512 else if n == 12 then 4096 else TWO_TO_32
  {
    Pow2Values();
    assert Pow2(7) == 128 && Pow2(9) == 512 && Pow2(12) == 4096;
  }

  lemma Residue128(dod: Int64)
    requires -64 <= dod < 64 || dod == -TWO_TO_63
    ensures ToWord(dod) % 128 == if dod == -TWO_TO_63 then 0 else if dod < 0 then dod + 128 else dod
  {
  }

  lemma Residue512(dod: Int64)
    requires -256 <= dod < 256 || dod == -TWO_TO_63
    ensures ToWord(dod) % 512 == if dod == -TWO_TO_63 then 0 else if dod < 0 then dod + 512 else dod
  {
  }

  lemma Residue4096(dod: Int64)
    requires -2048 <= dod < 2048 || dod == -TWO_TO_63
    ensures ToWord(dod) % 4096 == if dod == -TWO_TO_63 then 0 else if dod < 0 then dod + 4096 else dod
  {
  }

  lemma Residue32(dod: Int64)
    requires FitsInt32(dod)
    ensures ToWord(dod) % TWO_TO_32 == if dod < 0 then dod + TWO_TO_32 else dod
  {
  }

  function Tag(n: nat): seq<bool> {
    if n == 7 then [true, false]
    else if n == 9 then [true, true, false]
    else if n == 12 then [true, true, true, false]
    else [true, true, true, true]
  }

  lemma TaggedField(n: nat, field: seq<bool>, rest: seq<bool>)
    requires n in {7, 9, 12, 32} && |field| == n
    ensures DecodeDoD(Tag(n) + field + rest) == ReadSigned(field + rest, n)
  {
    var s, t := Tag(n) + field + rest, |Tag(n)|;
    assert s[t..] == field + rest;
    assert forall i | 0 <= i < t :: s[i] == Tag(n)[i];
  }

  /** The tier encodeDoD picks; the magnitude of the least int64 is itself. */
  function TierOf(dod: Int64): (n: nat)
    requires dod != 0
    ensures n in {7, 9, 12, 32}
    ensures EncodeDoD(dod) == Tag(n) + Bits(ToWord(dod) % Pow2(n), n)
    ensures n == 32 || dod == -TWO_TO_63 || -(Pow2(n - 1) as int) <= dod < Pow2(n - 1)
    ensures n == 32 ==> dod != -TWO_TO_63
  {
    FieldSizes(7); FieldSizes(9); FieldSizes(12); FieldSizes(32);
    var abs := if dod < 0 then Sub64(0, dod) else dod;
    if abs <= 63 then 7 else if abs <= 255 then 9 else if abs <= 2047 then 12 else 32
  }

  lemma DoDCode(dod: Int64, rest: seq<bool>)
    ensures DecodeDoD(EncodeDoD(dod) + rest) == Parsed(Narrowed(dod), rest)
    ensures Narrowed(dod) == dod <==> FitsInt32(dod)
    ensures -0x8000_0000 <= Narrowed(dod) < 0x8000_0000 && (Narrowed(dod) - dod) % TWO_TO_32 == 0
  {
    NarrowedExact(dod);
    if dod == 0 {
      assert ([false] + rest)[1..] == rest;
    } else {
      var n := TierOf(dod);
      TaggedField(n, Bits(ToWord(dod) % Pow2(n), n), rest);
      FieldOf(dod, n, rest);
    }
  }

  /** The prefix code bit by bit: a tag that tells the tier of the magnitude, and the
      lowest 7, 9, 12 or 32 bits in two's complement. The magnitude of the least
      int64 counts as small. */
  lemma DoDLayout(dod: Int64)
    ensures var c := EncodeDoD(dod);
            if dod == 0 then c == [false]
            else if -63 <= dod <= 63 || dod == -0x8000_0000_0000_0000 then
              |c| == 9 && c[..2] == [true, false] && Value(c[2..]) == dod % 128
            else if -255 <= dod <= 255 then
              |c| == 12 && c[..3] == [true, true, false] && Value(c[3..]) == dod % 512
            else if -2047 <= dod <= 2047 then
              |c| == 16 && c[..4] == [true, true, true, false] && Value(c[4..]) == dod % 4096
            else |c| == 36 && c[..4] == [true, true, true, true] && Value(c[4..]) == dod % 0x1_0000_0000
  {
    hide Bits, Value, Pow2;
    FieldSizes(7); FieldSizes(9); FieldSizes(12); FieldSizes(32);
    if dod == 0 {
    } else if -63 <= dod <= 63 || dod == -0x8000_0000_0000_0000 {
      TierLayout(dod, 7);
    } else if -255 <= dod <= 255 {
      TierLayout(dod, 9);
    } else if -2047 <= dod <= 2047 {
      TierLayout(dod, 12);
    } else {
      TierLayout(dod, 32);
    }
  }

  lemma TierLayout(dod: Int64, n: nat)
    requires n in {7, 9, 12, 32} && EncodeDoD(dod) == Tag(n) + Bits(ToWord(dod) % Pow2(n), n)
    ensures Pow2(n) == if n == 7 then 128 else if n == 9 then 512 else if n == 12 then 4096 else TWO_TO_32
    ensures var c, t := EncodeDoD(dod), Tag(n); |c| == |t| + n && c[..|t|] == t && Value(c[|t|..]) == dod % Pow2(n)
  {
    hide Bits, Value, EncodeDoD, Tag;
    var low := ToWord(dod) % Pow2(n);
    FieldSizes(n);
    BitLenBound(low, n); BitsExact(low, n);
    TakeDrop(Tag(n), Bits(low, n));
    SameResidues(dod);
  }

  lemma SameResidues(dod: Int64)
    ensures ToWord(dod) % 128 == dod % 128 && ToWord(dod) % 512 == dod % 512
    ensures ToWord(dod) % 4096 == dod % 4096 && ToWord(dod) % TWO_TO_32 == dod % TWO_TO_32
  {
    SameResidue(dod, 128, 0x200_0000_0000_0000); SameResidue(dod, 512, 0x80_0000_0000_0000);
    SameResidue(dod, 4096, 0x10_0000_0000_0000); SameResidue(dod, TWO_TO_32, TWO_TO_32);
  }

  lemma SameResidue(dod: Int64, m: nat, q: nat)
    requires m > 0 && m * q == TWO_TO_64
    ensures ToWord(dod) % m == dod % m
  {
    var d, r := dod / m, dod % m;
    assert dod == m * d + r;
    if dod < 0 {
      assert m * (d + q) == m * d + m * q;
      assert d + q <= -1 ==> m * (d + q) <= 0 - m;
      QuotientUnique(ToWord(dod), m, d + q, r);
    }
  }

  // ---------------------------------------------------------------- one value code

  /** The changed bits lie in the open window, in numbers: x needs no bit above the
      window and is a multiple of its lowest bit. */
  predicate InWindow(x: Word, w: XorWindow)
    requires Proper(w)
  {
    w.Window? && x < Pow2(64 - w.lz) && x % Pow2(64 - w.lz - w.mbc) == 0
  }

  /** The encoder compares zero counts, and thereby decides just that. */
  lemma ReusesNumeric(x: Word, w: XorWindow)
    requires x > 0 && Proper(w)
    ensures Reuses(x, w) <==> w.Window? && x < Pow2(64 - w.lz) && x % Pow2(64 - w.lz - w.mbc) == 0
  {
    if w.Window? {
      LeadingZerosAtLeast(x, w.lz);
      TrailingZerosAtLeast(x, 64 - w.lz - w.mbc);
    }
  }

  /** The code of an XOR bit by bit. One bit if nothing changed; a tag and the window
      if the change lies in it, and otherwise a tag, the number of leading zeros
      modulo 32, the number of meaningful bits less one, and these bits. */
  lemma XORLayout(x: Word, w: XorWindow)
    requires Proper(w)
    ensures x == 0 ==> EncodeXOR(x, w) == [false] && NextWindow(x, w) == w
    ensures x > 0 && InWindow(x, w) ==>
              var c := EncodeXOR(x, w);
              && |c| == 2 + w.mbc && c[..2] == [true, false]
              && Value(c[2..]) == x / Pow2(64 - w.lz - w.mbc) && NextWindow(x, w) == w
    ensures x > 0 && !InWindow(x, w) ==>
              var c, lz, tz := EncodeXOR(x, w), LeadingZeros(x), TrailingZeros(x);
              && lz + tz < 64 && |c| == 13 + (64 - lz - tz) && c[..2] == [true, true]
              && Value(c[2..7]) == lz % 32 && Value(c[7..13]) == 63 - lz - tz
              && Value(c[13..]) == x / Pow2(tz) && NextWindow(x, w) == Window(lz, 64 - lz - tz)
  {
    hide Bits, Value, Shr, Pow2, BitLen, TrailingZeros, EncodeXOR, Reuses;
    if x == 0 {
      assert EncodeXOR(x, w) == [false] by { NoChange(w); }
    } else {
      ReusesNumeric(x, w);
      if Reuses(x, w) {
        WindowCode(x, w);
      } else {
        OpeningCode(x, w);
      }
    }
  }

  lemma NoChange(w: XorWindow)
    requires Proper(w)
    ensures EncodeXOR(0, w) == [false]
  {
  }

  lemma WindowCode(x: Word, w: XorWindow)
    requires x > 0 && Proper(w) && Reuses(x, w)
    ensures var c := EncodeXOR(x, w);
            |c| == 2 + w.mbc && c[..2] == [true, false] && Value(c[2..]) == x / Pow2(64 - w.lz - w.mbc)
  {
    hide Bits, Value, Shr, Pow2, BitLen, TrailingZeros;
    var k := 64 - w.lz - w.mbc;
    MeaningfulBits(x, k, w.mbc); ShrIsDivide(x, k);
    TakeDrop([true, false], Bits(Shr64(x, k), w.mbc));
  }

  lemma OpeningCode(x: Word, w: XorWindow)
    requires x > 0 && Proper(w) && !Reuses(x, w)
    ensures var c, lz, tz := EncodeXOR(x, w), LeadingZeros(x), TrailingZeros(x);
            && lz + tz < 64 && |c| == 13 + (64 - lz - tz) && c[..2] == [true, true]
            && Value(c[2..7]) == lz % 32 && Value(c[7..13]) == 63 - lz - tz && Value(c[13..]) == x / Pow2(tz)
  {
    hide Bits, Value, Shr, Pow2, BitLen, TrailingZeros;
    var lz, tz := LeadingZeros(x), TrailingZeros(x);
    var n := 64 - lz - tz;
    LeadingZeroField(lz); MeaningfulCount(n); MeaningfulBits(x, tz, n); ShrIsDivide(x, tz);
    FourPieces([true, true], Bits(lz, 5), Bits(n - 1, 6), Bits(Shr64(x, tz), n));
  }

  lemma FourPieces(a: seq<bool>, b: seq<bool>, c: seq<bool>, d: seq<bool>)
    requires |a| == 2 && |b| == 5 && |c| == 6
    ensures var s := a + b + c + d;
            s[..2] == a && s[2..7] == b && s[7..13] == c && s[13..] == d
  {
  }

  /** The change is stored without loss: there is none, it lies in the open window,
      or it reaches the upper half of the word, so that the number of its leading
      zeros fits five bits. */
  predicate WindowFits(x: Word, w: XorWindow)
    requires Proper(w)
  {
    x == 0 || InWindow(x, w) || x >= 0x1_0000_0000
  }

  lemma FitsByZeros(x: Word, w: XorWindow)
    requires x > 0 && Proper(w)
    ensures WindowFits(x, w) <==> Reuses(x, w) || LeadingZeros(x) <= 31
  {
    ReusesNumeric(x, w);
    Pow2Values(); LeadingZerosAtLeast(x, 32);
  }

  /** The two sides agree on where the next code ends. */
  predicate InStep(w: XorWindow, wd: XorWindow) {
    w.Window? == wd.Window? && (w.Window? ==> w.mbc == wd.mbc)
  }

  /** The n-bit field of x >> k gives x back when shifted left by k. */
  lemma MeaningfulBits(x: Word, k: nat, n: nat)
    requires x > 0 && k <= TrailingZeros(x) && BitLen(x) <= k + n
    ensures Value(Bits(Shr64(x, k), n)) == Shr64(x, k) && Shl(Shr64(x, k), k) == x
    ensures k < 64 && Shl64(Shr64(x, k), k) == x
  {
    BitLenWord(x);
    BitLenShr(x, k); BitsExact(Shr(x, k), n);
    ShrShl(x, k);
    Shl64Exact(Shr64(x, k), k);
  }

  /** The number of leading zeros survives modulo 32. */
  lemma LeadingZeroField(lz: nat)
    requires lz < 64
    ensures Value(Bits(lz, 5)) == if lz < 32 then lz else lz - 32
  {
    ValueOfBits(lz, 5);
    SmallPowers();
    if lz < 32 {
      BitLenBound(lz, 5); LowExact(lz, 5);
    } else {
      LowDropsTop(lz, 5);
    }
  }

  lemma {:induction false} LowDropsTop(v: nat, n: nat)
    requires Pow2(n) <= v < 2 * Pow2(n)
    ensures Low(v, n) == v - Pow2(n)
  {
    if n > 0 {
      LowDropsTop(v / 2, n - 1);
    }
  }

  /** With 32 or more leading zeros the decoder shifts 32 places too far. */
  lemma ShiftedTooFar(x: Word, k: nat)
    requires x > 0 && LeadingZeros(x) > 31 && k <= TrailingZeros(x) && k + 32 < 64
    ensures Shl64(Shr64(x, k), k + 32) != x
  {
    ShrShl(x, k); ShlAdd(Shr64(x, k), k, 32);
    BitLenShl(x, 32);
    Pow2Values(); BitLenBound(Shl(x, 32), 64);
    Shl64Exact(Shr64(x, k), k + 32);
  }

  lemma UnchangedCode(prev: Word, wd: XorWindow, rest: seq<bool>)
    ensures DecodeXOR([false] + rest, prev, wd) == Parsed((prev, wd), rest)
    ensures Xor(prev, 0) == prev
  {
    assert ([false] + rest)[1..] == rest;
    XorNatCancel(prev, prev);
  }

  lemma ReuseCode(body: seq<bool>, prev: Word, wd: XorWindow, rest: seq<bool>)
    requires wd.Window? && |body| == wd.mbc
    ensures DecodeXOR([true, false] + body + rest, prev, wd)
         == Parsed((Xor(prev, Shl64(Field(body), ShiftCount(wd.lz, wd.mbc))), wd), rest)
  {
    var s := [true, false] + body + rest;
    assert s[2..] == body + rest;
    assert s[2..][..wd.mbc] == body && s[2..][wd.mbc..] == rest;
  }

  lemma TakeDrop(f: seq<bool>, rest: seq<bool>)
    ensures (f + rest)[..|f|] == f && (f + rest)[|f|..] == rest
  {
  }

  lemma NewCode(f1: seq<bool>, f2: seq<bool>, f3: seq<bool>, rest: seq<bool>, prev: Word, wd: XorWindow)
    requires |f1| == 5 && |f2| == 6 && |f3| == Value(f2) + 1 <= 64 && Value(f1) < 32
    ensures DecodeXOR([true, true] + f1 + f2 + f3 + rest, prev, wd)
         == Parsed((Xor(prev, Shl64(Field(f3), ShiftCount(Value(f1), |f3|))), Window(Value(f1), |f3|)), rest)
  {
    hide OpenWindow, Value, XorNat, Shl;
    var s0 := f1 + (f2 + (f3 + rest));
    var s := [true, true] + f1 + f2 + f3 + rest;
    assert s == [true, true] + s0;
    TakeDrop([true, true], s0);
    OpenedWindow(f1, f2, f3, rest, prev);
  }

  lemma OpenedWindow(f1: seq<bool>, f2: seq<bool>, f3: seq<bool>, rest: seq<bool>, prev: Word)
    requires |f1| == 5 && |f2| == 6 && |f3| == Value(f2) + 1 <= 64 && Value(f1) < 32
    ensures OpenWindow(f1 + (f2 + (f3 + rest)), prev)
         == Parsed((Xor(prev, Shl64(Field(f3), ShiftCount(Value(f1), |f3|))), Window(Value(f1), |f3|)), rest)
  {
    hide Value, XorNat, Shl;
    TakeDrop(f1, f2 + (f3 + rest)); TakeDrop(f2, f3 + rest); TakeDrop(f3, rest);
  }

  lemma XORCode(x: Word, w: XorWindow, prev: Word, wd: XorWindow, rest: seq<bool>) returns (v: Word, wd': XorWindow)
    requires Proper(w) && InStep(w, wd)
    ensures DecodeXOR(EncodeXOR(x, w) + rest, prev, wd) == Parsed((v, wd'), rest)
    ensures InStep(NextWindow(x, w), wd')
    ensures wd == w && WindowFits(x, w) ==> v == Xor(prev, x) && wd' == NextWindow(x, w)
    ensures wd == w && !WindowFits(x, w) ==> v != Xor(prev, x)
  {
    hide DecodeXOR, InWindow, XorNat, Shr, Shl, Pow2, BitLen, TrailingZeros, Value, Bits;
    if x > 0 { FitsByZeros(x, w); }
    if x == 0 {
      v, wd' := prev, wd;
      UnchangedCode(prev, wd, rest);
    } else if Reuses(x, w) {
      var k := 64 - w.lz - w.mbc;
      MeaningfulBits(x, k, w.mbc);
      ReuseCode(Bits(Shr64(x, k), w.mbc), prev, wd, rest);
      v, wd' := Xor(prev, Shl64(Shr64(x, k), ShiftCount(wd.lz, wd.mbc))), wd;
    } else {
      v, wd' := NewWindowCode(x, w, prev, wd, rest);
    }
  }

  lemma NewWindowCode(x: Word, w: XorWindow, prev: Word, wd: XorWindow, rest: seq<bool>)
      returns (v: Word, wd': XorWindow)
    requires Proper(w) && x > 0 && !Reuses(x, w)
    ensures DecodeXOR(EncodeXOR(x, w) + rest, prev, wd) == Parsed((v, wd'), rest)
    ensures InStep(NextWindow(x, w), wd')
    ensures LeadingZeros(x) <= 31 ==> v == Xor(prev, x) && wd' == NextWindow(x, w)
    ensures LeadingZeros(x) > 31 ==> v != Xor(prev, x)
  {
    hide Bits, Value, XorNat, Shr, Shl, Pow2, DecodeXOR, OpenWindow;
    var lz, tz := LeadingZeros(x), TrailingZeros(x);
    var mbc := 64 - lz - tz;
    var lzRead := if lz < 32 then lz else lz - 32;
    LeadingZeroField(lz); MeaningfulCount(mbc); MeaningfulBits(x, tz, mbc);
    NewCode(Bits(lz, 5), Bits(mbc - 1, 6), Bits(Shr64(x, tz), mbc), rest, prev, wd);
    v, wd' := Xor(prev, Shl64(Shr64(x, tz), ShiftCount(lzRead, mbc))), Window(lzRead, mbc);
    if lz > 31 {
      ShiftedTooFar(x, tz);
      XorDiffers(prev, Shl64(Shr64(x, tz), tz + 32), x);
    }
  }

  lemma XorDiffers(p: Word, x: Word, y: Word)
    requires x != y
    ensures Xor(p, x) != Xor(p, y)
  {
    if Xor(p, x) == Xor(p, y) {
      XorNatInjective(p, x, y);
    }
  }

  lemma MeaningfulCount(mbc: nat)
    requires 1 <= mbc <= 64
    ensures Value(Bits(mbc - 1, 6)) == mbc - 1
  {
    assert Pow2(6) == 64;
    BitLenBound(mbc - 1, 6); BitsExact(mbc - 1, 6);
  }
}
