/** The bit writer and bit reader of the codec, packing bits into bytes most
    significant bit first, against an abstract view as bit strings. */
module BitStream {
  import opened Words

  // ---------------------------------------------------------------- bytes as bit strings

  function BytesToBits(bs: seq<Byte>): (s: seq<bool>)
    ensures |s| == 8 * |bs|
  {
    if bs == [] then [] else Bits(bs[0], 8) + BytesToBits(bs[1..])
  }

  /** The byte that holds eight bits. */
  function PackByte(chunk: seq<bool>): (b: Byte)
    requires |chunk| == 8
    ensures Bits(b, 8) == chunk
  {
    ValueBound(chunk);
    Pow2Values();
    BitsOfValue(chunk);
    Value(chunk)
  }

  /** The byte string a finished stream of bits is stored as. */
  function Pack(b: seq<bool>): (bs: seq<Byte>)
  {
    if b == [] then []
    else if |b| < 8 then [PackByte(b + Zeros(8 - |b|))]
    else [PackByte(b[..8])] + Pack(b[8..])
  }

  lemma {:induction false} BytesToBitsAppend(a: seq<Byte>, b: seq<Byte>)
    ensures BytesToBits(a + b) == BytesToBits(a) + BytesToBits(b)
  {
    if a == [] {
      assert a + b == b;
    } else {
      BytesToBitsAppend(a[1..], b);
      assert (a + b)[1..] == a[1..] + b;
    }
  }

  lemma {:induction false} PackedBits(b: seq<bool>) returns (pad: nat)
    ensures pad < 8 && BytesToBits(Pack(b)) == b + Zeros(pad)
  {
    if b == [] {
      pad := 0;
    } else if |b| < 8 {
      pad := 8 - |b|;
      FirstByte(PackByte(b + Zeros(pad)), []);
    } else {
      pad := PackedBits(b[8..]);
      FirstByte(PackByte(b[..8]), Pack(b[8..]));
      Regroup(b[..8], b[8..], Zeros(pad), BytesToBits(Pack(b)));
      assert b[..8] + b[8..] == b;
    }
  }

  lemma FirstByte(b: Byte, rest: seq<Byte>)
    ensures BytesToBits([b] + rest) == Bits(b, 8) + BytesToBits(rest)
  {
    assert ([b] + rest)[1..] == rest;
  }

  lemma AppendByte(bs: seq<Byte>, b: Byte)
    ensures BytesToBits(bs + [b]) == BytesToBits(bs) + Bits(b, 8)
  {
    BytesToBitsAppend(bs, [b]);
    assert BytesToBits([b]) == Bits(b, 8) + [];
  }

  lemma ShiftInBit(v: nat, n: nat, b: bool)
    requires n < 8 && v < Pow2(n)
    ensures var w := v * 2 + if b then 1 else 0; w < Pow2(n + 1) && w < 256 && Bits(w, n + 1) == Bits(v, n) + [b]
  {
    var w := v * 2 + if b then 1 else 0;
    assert w / 2 == v && (w % 2 == 1) == b;
    assert Pow2(n + 1) == 2 * Pow2(n);
    PowMonotone(n + 1, 8);
    assert Pow2(8) == 256;
  }

  lemma {:induction false} BytesToBitsInjective(x: seq<Byte>, y: seq<Byte>)
    requires BytesToBits(x) == BytesToBits(y)
    ensures x == y
  {
    if x != [] {
      assert y != [];
      var xs, ys := BytesToBits(x), BytesToBits(y);
      assert xs[..8] == Bits(x[0], 8) && ys[..8] == Bits(y[0], 8);
      assert xs[8..] == BytesToBits(x[1..]) && ys[8..] == BytesToBits(y[1..]);
      Pow2Values();
      BitLenBound(x[0], 8); BitLenBound(y[0], 8);
      BitsExact(x[0], 8); BitsExact(y[0], 8);
      BytesToBitsInjective(x[1..], y[1..]);
    }
  }

  /** Packing is the only byte string holding the bits and nothing but zero padding. */
  lemma PackUnique(bs: seq<Byte>, b: seq<bool>, pad: nat)
    requires pad < 8 && BytesToBits(bs) == b + Zeros(pad)
    ensures bs == Pack(b)
  {
    var pad' := PackedBits(b);
    assert 8 * |bs| == |b| + pad && 8 * |Pack(b)| == |b| + pad';
    BytesToBitsInjective(bs, Pack(b));
  }

  /** Bit i of the stream is in byte i / 8, the first of eight on top; what is left of
      the last byte is zero. */
  lemma {:induction false} PackedBitAt(b: seq<bool>, i: nat)
    requires i < 8 * |Pack(b)|
    ensures |b| <= 8 * |Pack(b)| < |b| + 8
    ensures BitOf(Pack(b)[i / 8], 7 - i % 8) <==> i < |b| && b[i]
  {
    hide Bits, Value, Pow2;
    var pad := PackedBits(b);
    BitOfByte(Pack(b), i);
    var s := b + Zeros(pad);
    if i >= |b| { ZerosFalse(pad, i - |b|); }
  }

  lemma {:induction false} ZerosFalse(n: nat, i: nat)
    requires i < n
    ensures !Zeros(n)[i]
  {
    if i < n - 1 { ZerosFalse(n - 1, i); }
  }

  lemma {:induction false} BitOfByte(bs: seq<Byte>, i: nat)
    requires i < 8 * |bs|
    ensures BytesToBits(bs)[i] <==> BitOf(bs[i / 8], 7 - i % 8)
  {
    hide Bits, Pow2;
    if i < 8 {
      BitAt(bs[0], 8, i);
      ShrIsDivide(bs[0], 7 - i);
    } else {
      BitOfByte(bs[1..], i - 8);
      assert bs[1..][(i - 8) / 8] == bs[i / 8];
    }
  }

  // ---------------------------------------------------------------- BitWriter

  lemma NoBits()
    ensures Bits(0, 0) == [] && Pow2(0) == 1
  {
  }

  class BitWriter {
    var buf: seq<Byte>
    var currentByte: Byte
    var bitCount: nat
    /** Everything written so far. */
    ghost var contents: seq<bool>

    ghost predicate Valid()
      reads this
    {
      && bitCount < 8 && currentByte < Pow2(bitCount)
      && contents == BytesToBits(buf) + Bits(currentByte, bitCount)
    }

    constructor ()
      ensures Valid() && contents == []
    {
      buf, currentByte, bitCount, contents := [], 0, 0, [];
    }

    method WriteBit(b: bool)
      requires Valid()
      modifies this
      ensures Valid() && contents == old(contents) + [b]
    {
      hide BytesToBits, Bits, Pow2;
      ghost var earlier, partial := BytesToBits(buf), Bits(currentByte, bitCount);
      ShiftInBit(currentByte, bitCount, b);
      currentByte := currentByte * 2 + if b then 1 else 0;
      bitCount := bitCount + 1;
      contents := contents + [b];
      assert Bits(currentByte, bitCount) == partial + [b];
      assert contents == earlier + (partial + [b]);
      if bitCount == 8 {
        AppendByte(buf, currentByte);
        buf := buf + [currentByte];
        currentByte := 0;
        bitCount := 0;
        NoBits();
        assert contents == BytesToBits(buf) + [];
      }
    }

    /** Writes the lowest n bits of value, most significant first. */
    method WriteBits(value: nat, n: nat)
      requires Valid()
      modifies this
      ensures Valid() && contents == old(contents) + Bits(value, n)
    {
      var i := n;
      while i > 0
        invariant 0 <= i <= n && Valid()
        invariant contents == old(contents) + Bits(Shr(value, i), n - i)
      {
        i := i - 1;
        ShrStep(value, i);
        WriteBit(Shr(value, i) % 2 == 1);
      }
    }

    /** Pads the open byte with zeros and hands the buffer over. */
    method Flush() returns (bytes: seq<Byte>)
      requires Valid()
      modifies this
      ensures bytes == buf == Pack(old(contents))
    {
      hide Pack, BytesToBits, Bits, Shl, Pow2;
      if bitCount > 0 {
        FlushPads(buf, currentByte, bitCount);
        currentByte := Shl(currentByte, 8 - bitCount) % 256;
        buf := buf + [currentByte];
      } else {
        FlushWhole(buf);
      }
      bytes := buf;
    }
  }

  lemma {:induction false} PowMonotone(m: nat, n: nat)
    requires m <= n
    ensures Pow2(m) <= Pow2(n)
  {
    if m < n {
      PowMonotone(m, n - 1);
    }
  }

  lemma {:induction false} BitsShl(v: nat, n: nat, pad: nat)
    ensures Bits(Shl(v, pad), n + pad) == Bits(v, n) + Zeros(pad)
    decreases pad
  {
    if pad == 0 {
      assert Bits(v, n) + Zeros(0) == Bits(v, n);
    } else {
      BitsShl(v, n, pad - 1);
      ShlDouble(v, pad - 1);
      assert Zeros(pad) == Zeros(pad - 1) + [false];
    }
  }

  lemma ShiftFill(v: nat, n: nat, pad: nat)
    requires v < Pow2(n) && n + pad == 8
    ensures Shl(v, pad) < 256
    ensures Bits(Shl(v, pad), 8) == Bits(v, n) + Zeros(pad)
  {
    BitsShl(v, n, pad);
    Pow2Values();
    BitLenBound(v, n);
    if v > 0 {
      BitLenShl(v, pad);
    } else {
      ShlIsMultiply(v, pad);
    }
    BitLenBound(Shl(v, pad), 8);
  }

  lemma FlushPads(buf: seq<Byte>, last: Byte, n: nat)
    requires 0 < n < 8 && last < Pow2(n)
    ensures Shl(last, 8 - n) < 256
    ensures buf + [Shl(last, 8 - n)] == Pack(BytesToBits(buf) + Bits(last, n))
  {
    hide Pack, BytesToBits, Bits, Shl, Pow2, Zeros;
    ShiftFill(last, n, 8 - n);
    var b, full, pad := BytesToBits(buf) + Bits(last, n), buf + [Shl(last, 8 - n)], 8 - n;
    AppendByte(buf, Shl(last, pad));
    Regroup(BytesToBits(buf), Bits(last, n), Zeros(pad), BytesToBits(full));
    PackUnique(full, b, pad);
  }

  lemma FlushWhole(buf: seq<Byte>)
    ensures buf == Pack(BytesToBits(buf) + [])
  {
    var b := BytesToBits(buf);
    assert b + [] == b + Zeros(0) == b;
    PackUnique(buf, b, 0);
  }

  lemma Regroup(a: seq<bool>, b: seq<bool>, c: seq<bool>, all: seq<bool>)
    requires all == a + (b + c)
    ensures all == (a + b) + c
  {
  }

  // ---------------------------------------------------------------- BitReader

  class BitReader {
    const buf: seq<Byte>
    var bytePos: nat
    var bitPos: nat
    /** The bits not read yet, padding included. */
    ghost var remaining: seq<bool>

    ghost predicate Valid()
      reads this
    {
      && bitPos < 8 && bytePos <= |buf| && (bytePos == |buf| ==> bitPos == 0)
      && remaining == BytesToBits(buf[bytePos..])[bitPos..]
    }

    constructor (b: seq<Byte>)
      ensures Valid() && remaining == BytesToBits(b)
    {
      buf, bytePos, bitPos, remaining := b, 0, 0, BytesToBits(b);
    }

    /** Fails, changing nothing, exactly when no bit is left. */
    method ReadBit() returns (ok: bool, bit: bool)
      requires Valid()
      modifies this
      ensures Valid() && ok == (old(remaining) != [])
      ensures if ok then bit == old(remaining)[0] && remaining == old(remaining)[1..] else remaining == []
    {
      if bytePos >= |buf| {
        return false, false;
      }
      ghost var rest := buf[bytePos..];
      assert rest[0] == buf[bytePos] && rest[1..] == buf[bytePos + 1..];
      BitAt(buf[bytePos], 8, bitPos);
      bit := Shr(buf[bytePos], 7 - bitPos) % 2 == 1;
      bitPos := bitPos + 1;
      if bitPos == 8 {
        bitPos := 0;
        bytePos := bytePos + 1;
      }
      remaining := remaining[1..];
      ok := true;
    }

    /** Reads an n-bit number, or fails when fewer than n bits are left. */
    method ReadBits(n: nat) returns (ok: bool, v: Word)
      requires Valid() && n <= 64
      modifies this
      ensures Valid() && ok == (n <= |old(remaining)|)
      ensures ok ==> v == Value(old(remaining)[..n]) && remaining == old(remaining)[n..]
    {
      v := 0;
      ghost var all := remaining;
      for i := 0 to n
        invariant Valid() && i <= |all| && remaining == all[i..]
        invariant v == Value(all[..i])
      {
        var got, bit := ReadBit();
        if !got {
          return false, 0;
        }
        assert all[..i + 1][..i] == all[..i] && all[..i + 1][i] == bit;
        assert Value(all[..i + 1]) == 2 * v + if bit then 1 else 0;
        assert Value(all[..i + 1]) < TWO_TO_64 by { ValueBound(all[..i + 1]); PowMonotone(i + 1, 64); Pow2Values(); }
        v := 2 * v + if bit then 1 else 0;
      }
      ok := true;
    }
  }
}
