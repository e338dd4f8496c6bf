/** The two bit streams of the Gorilla codec as functions on bit strings:
    delta-of-delta prefix codes for timestamps, XOR windows for values. */
module Codec {
  import opened Words
  import opened BitStream

  datatype Streams = Streams(timestamps: seq<Byte>, values: seq<Byte>)

  /** What Decode returns: points, or ErrTruncatedInput. */
  datatype Decoded = Points(points: seq<Point>) | Truncated

  /** The outcome of reading one item off the front of a bit string. */
  datatype Parsed<+T> = Short | Parsed(value: T, rest: seq<bool>)

  /** prevLZ, prevMBC and hasWindow of the value coder. */
  datatype WindowState = NoWindow | Window(lz: nat, mbc: nat)
  type XorWindow = w: WindowState | w.Window? ==> w.lz < 64 && 1 <= w.mbc <= 64 witness NoWindow

  /** A window the encoder can have opened. */
  predicate Proper(w: XorWindow) {
    w.Window? ==> w.lz + w.mbc <= 64
  }

  /** 64 - lz - mbc in uint arithmetic: a sum above 64 wraps to a huge count. */
  function ShiftCount(lz: nat, mbc: nat): nat
    requires lz + mbc <= 128
  {
    if lz + mbc <= 64 then 64 - lz - mbc else TWO_TO_64 + 64 - lz - mbc
  }

  lemma ShiftCountWraps(lz: nat, mbc: nat)
    requires lz + mbc <= 128
    ensures ShiftCount(lz, mbc) == (64 - lz - mbc) % TWO_TO_64
  {
  }

  function Field(s: seq<bool>): (v: Word)
    requires |s| <= 64
    ensures v == Value(s)
  {
    ValueBound(s); PowMonotone(|s|, 64); Pow2Values();
    Value(s)
  }

  // ---------------------------------------------------------------- delta of delta

  function EncodeDoD(dod: Int64): seq<bool> {
    if dod == 0 then [false]
    else
      var abs := if dod < 0 then Sub64(0, dod) else dod;
      if abs <= 63 then [true, false] + Bits(ToWord(dod) % 0x80, 7)
      else if abs <= 255 then [true, true, false] + Bits(ToWord(dod) % 0x200, 9)
      else if abs <= 2047 then [true, true, true, false] + Bits(ToWord(dod) % 0x1000, 12)
      else [true, true, true, true] + Bits(ToWord(dod) % TWO_TO_32, 32)
  }

  /** i >> k on int64, rounding toward minus infinity. */
  function Sar(i: int, k: nat): int {
    if k == 0 then i else Sar(i, k - 1) / 2
  }

  lemma {:induction false} SarMultiple(a: int, k: nat)
    ensures Sar(a * Pow2(k), k) == a
    decreases k
  {
    if k > 0 {
      SarMultiple(2 * a, k - 1);
      assert a * Pow2(k) == 2 * a * Pow2(k - 1);
    }
  }

  lemma {:induction false} SarBound(i: Int64, k: nat)
    ensures -TWO_TO_63 <= Sar(i, k) < TWO_TO_63
  {
    if k > 0 {
      SarBound(i, k - 1);
    }
  }

  function SignExtend64(v: Word, n: nat): Int64
    requires n <= 64
  {
    SarBound(ToSigned(Shl64(v, 64 - n)), 64 - n);
    Sar(ToSigned(Shl64(v, 64 - n)), 64 - n)
  }

  function ReadSigned(s: seq<bool>, n: nat): Parsed<Int64>
    requires n <= 64
  {
    if |s| < n then Short else Parsed(SignExtend64(Field(s[..n]), n), s[n..])
  }

  function DecodeDoD(s: seq<bool>): Parsed<Int64> {
    if |s| < 1 then Short
    else if !s[0] then Parsed(0, s[1..])
    else if |s| < 2 then Short
    else if !s[1] then ReadSigned(s[2..], 7)
    else if |s| < 3 then Short
    else if !s[2] then ReadSigned(s[3..], 9)
    else if |s| < 4 then Short
    else if !s[3] then ReadSigned(s[4..], 12)
    else ReadSigned(s[4..], 32)
  }

  function EncodeDoDs(ts: seq<Word>, prevTS: Word, prevDelta: Int64): seq<bool> {
    if ts == [] then []
    else
      var delta := Sub64(ToSigned(ts[0]), ToSigned(prevTS));
      EncodeDoD(Sub64(delta, prevDelta)) + EncodeDoDs(ts[1..], ts[0], delta)
  }

  function DecodeDoDs(s: seq<bool>, n: nat, prevTS: Word, prevDelta: Int64): Parsed<seq<Word>> {
    if n == 0 then Parsed([], s)
    else
      match DecodeDoD(s)
      case Short => Short
      case Parsed(dod, s1) =>
        var delta := Add64(prevDelta, dod);
        var ts := ToWord(Add64(ToSigned(prevTS), delta));
        match DecodeDoDs(s1, n - 1, ts, delta)
        case Short => Short
        case Parsed(more, s2) => Parsed([ts] + more, s2)
  }

  // ---------------------------------------------------------------- xor windows

  /** The changed bits lie inside the open window. */
  predicate Reuses(x: Word, w: XorWindow)
    requires x > 0 && Proper(w)
  {
    w.Window? && LeadingZeros(x) >= w.lz && TrailingZeros(x) >= 64 - w.lz - w.mbc
  }

  function NextWindow(x: Word, w: XorWindow): (w': XorWindow)
    requires Proper(w)
    ensures Proper(w')
  {
    if x == 0 || Reuses(x, w) then w
    else Window(LeadingZeros(x), 64 - LeadingZeros(x) - TrailingZeros(x))
  }

  function EncodeXOR(x: Word, w: XorWindow): seq<bool>
    requires Proper(w)
  {
    if x == 0 then [false]
    else if Reuses(x, w) then [true, false] + Bits(Shr64(x, 64 - w.lz - w.mbc), w.mbc)
    else
      var lz, tz := LeadingZeros(x), TrailingZeros(x);
      [true, true] + Bits(lz, 5) + Bits(64 - lz - tz - 1, 6) + Bits(Shr64(x, tz), 64 - lz - tz)
  }

  function DecodeXOR(s: seq<bool>, prev: Word, w: XorWindow): Parsed<(Word, XorWindow)> {
    if |s| < 1 then Short
    else if !s[0] then Parsed((prev, w), s[1..])
    else if |s| < 2 then Short
    else if !s[1] && w.Window? then
      var body := s[2..];
      if |body| < w.mbc then Short
      else
        var x := Shl64(Field(body[..w.mbc]), ShiftCount(w.lz, w.mbc));
        Parsed((Xor(prev, x), w), body[w.mbc..])
    else OpenWindow(s[2..], prev)
  }

  function OpenWindow(s: seq<bool>, prev: Word): Parsed<(Word, XorWindow)> {
    if |s| < 5 then Short
    else
      var lz, s1 := Field(s[..5]), s[5..];
      if |s1| < 6 then Short
      else
        var mbc, s2 := Field(s1[..6]) + 1, s1[6..];
        if |s2| < mbc then Short
        else
          ValueBound(s[..5]); ValueBound(s1[..6]); SmallPowers();
          var x := Shl64(Field(s2[..mbc]), ShiftCount(lz, mbc));
          Parsed((Xor(prev, x), Window(lz, mbc)), s2[mbc..])
  }

  lemma SmallPowers()
    ensures Pow2(5) == 32 && Pow2(6) == 64
  {
  }

  function EncodeXORs(vs: seq<Word>, prev: Word, w: XorWindow): seq<bool>
    requires Proper(w)
  {
    if vs == [] then []
    else
      var x := Xor(vs[0], prev);
      EncodeXOR(x, w) + EncodeXORs(vs[1..], vs[0], NextWindow(x, w))
  }

  function DecodeXORs(s: seq<bool>, n: nat, prev: Word, w: XorWindow): Parsed<seq<Word>> {
    if n == 0 then Parsed([], s)
    else
      match DecodeXOR(s, prev, w)
      case Short => Short
      case Parsed((v, w'), s1) =>
        match DecodeXORs(s1, n - 1, v, w')
        case Short => Short
        case Parsed(more, s2) => Parsed([v] + more, s2)
  }

  // ---------------------------------------------------------------- whole streams

  function Times(pts: seq<Point>): (ts: seq<Word>)
    ensures |ts| == |pts| && forall i | 0 <= i < |pts| :: ts[i] == pts[i].ts
  {
    seq(|pts|, i requires 0 <= i < |pts| => pts[i].ts)
  }

  function Values(pts: seq<Point>): (vs: seq<Word>)
    ensures |vs| == |pts| && forall i | 0 <= i < |pts| :: vs[i] == pts[i].bits
  {
    seq(|pts|, i requires 0 <= i < |pts| => pts[i].bits)
  }

  function Zip(ts: seq<Word>, vs: seq<Word>): (pts: seq<Point>)
    requires |ts| == |vs|
    ensures |pts| == |ts| && forall i | 0 <= i < |pts| :: pts[i] == Point(ts[i], vs[i])
  {
    seq(|ts|, i requires 0 <= i < |ts| => Point(ts[i], vs[i]))
  }

  function TimestampBits(ts: seq<Word>): seq<bool>
    requires ts != []
  {
    if |ts| == 1 then Bits(ts[0], 64)
    else
      var delta := Sub64(ToSigned(ts[1]), ToSigned(ts[0]));
      Bits(ts[0], 64) + Bits(ToWord(delta), 64) + EncodeDoDs(ts[2..], ts[1], delta)
  }

  function ValueBits(vs: seq<Word>): seq<bool>
    requires vs != []
  {
    Bits(vs[0], 64) + EncodeXORs(vs[1..], vs[0], NoWindow)
  }

  function Encoded(pts: seq<Point>): Streams {
    if pts == [] then Streams([], [])
    else Streams(Pack(TimestampBits(Times(pts))), Pack(ValueBits(Values(pts))))
  }

  function ParseTimestamps(s: seq<bool>, n: nat): Parsed<seq<Word>>
    requires n > 0
  {
    if |s| < 64 then Short
    else if n == 1 then Parsed([Field(s[..64])], s[64..])
    else if |s| < 128 then Short
    else
      var t0, delta := Field(s[..64]), ToSigned(Field(s[64..128]));
      var t1 := ToWord(Add64(ToSigned(t0), delta));
      match DecodeDoDs(s[128..], n - 2, t1, delta)
      case Short => Short
      case Parsed(more, rest) => Parsed([t0, t1] + more, rest)
  }

  function ParseValues(s: seq<bool>, n: nat): Parsed<seq<Word>>
    requires n > 0
  {
    if |s| < 64 then Short
    else
      match DecodeXORs(s[64..], n - 1, Field(s[..64]), NoWindow)
      case Short => Short
      case Parsed(more, rest) => Parsed([Field(s[..64])] + more, rest)
  }

  lemma {:induction false} DecodeDoDsLength(s: seq<bool>, n: nat, prevTS: Word, prevDelta: Int64)
    ensures var p := DecodeDoDs(s, n, prevTS, prevDelta); p.Parsed? ==> |p.value| == n
    decreases n
  {
    if n > 0 && DecodeDoD(s).Parsed? {
      var delta := Add64(prevDelta, DecodeDoD(s).value);
      DecodeDoDsLength(DecodeDoD(s).rest, n - 1, ToWord(Add64(ToSigned(prevTS), delta)), delta);
    }
  }

  lemma {:induction false} DecodeXORsLength(s: seq<bool>, n: nat, prev: Word, w: XorWindow)
    ensures var p := DecodeXORs(s, n, prev, w); p.Parsed? ==> |p.value| == n
    decreases n
  {
    if n > 0 && DecodeXOR(s, prev, w).Parsed? {
      var p := DecodeXOR(s, prev, w);
      DecodeXORsLength(p.rest, n - 1, p.value.0, p.value.1);
    }
  }

  lemma ParsedLengths(s: seq<bool>, n: nat)
    requires n > 0
    ensures var p := ParseTimestamps(s, n); p.Parsed? ==> |p.value| == n
    ensures var p := ParseValues(s, n); p.Parsed? ==> |p.value| == n
  {
    if |s| >= 128 && n > 1 {
      var t0, delta := Field(s[..64]), ToSigned(Field(s[64..128]));
      DecodeDoDsLength(s[128..], n - 2, ToWord(Add64(ToSigned(t0), delta)), delta);
    }
    if |s| >= 64 {
      DecodeXORsLength(s[64..], n - 1, Field(s[..64]), NoWindow);
    }
  }

  /** The result of Decode: the two streams are parsed independently, and any
      missing bit in either is a truncation error. */
  function Decode(streams: Streams, count: int): Decoded {
    if count <= 0 then Points([])
    else DecodeBits(BytesToBits(streams.timestamps), BytesToBits(streams.values), count)
  }

  function DecodeBits(tsBits: seq<bool>, valBits: seq<bool>, count: nat): Decoded
    requires count > 0
  {
    ParsedLengths(tsBits, count); ParsedLengths(valBits, count);
    match (ParseTimestamps(tsBits, count), ParseValues(valBits, count))
    case (Parsed(ts, _), Parsed(vs, _)) => Points(Zip(ts, vs))
    case (_, _) => Truncated
  }
}
