/** Encode and Decode as the loops that drive the bit writers and readers,
    proved to compute the stream functions of the codec. */
module CodecImpl {
  import opened Words
  import opened BitStream
  import opened Codec
  import opened CodecProofs
  import opened CodecTheorems

  // ---------------------------------------------------------------- writing

  method WriteDoD(w: BitWriter, dod: Int64)
    requires w.Valid()
    modifies w
    ensures w.Valid() && w.contents == old(w.contents) + EncodeDoD(dod)
  {
    hide BytesToBits, Bits, Pow2;
    if dod == 0 {
      w.WriteBit(false);
      return;
    }
    var abs := dod;
    if abs < 0 {
      abs := Sub64(0, abs);
    }
    ghost var before := w.contents;
    if abs <= 63 {
      w.WriteBit(true); w.WriteBit(false);
      w.WriteBits(ToWord(dod) % 0x80, 7);
      Tagged(before, Tag(7), Bits(ToWord(dod) % 0x80, 7), w.contents);
    } else if abs <= 255 {
      w.WriteBit(true); w.WriteBit(true); w.WriteBit(false);
      w.WriteBits(ToWord(dod) % 0x200, 9);
      Tagged(before, Tag(9), Bits(ToWord(dod) % 0x200, 9), w.contents);
    } else if abs <= 2047 {
      w.WriteBit(true); w.WriteBit(true); w.WriteBit(true); w.WriteBit(false);
      w.WriteBits(ToWord(dod) % 0x1000, 12);
      Tagged(before, Tag(12), Bits(ToWord(dod) % 0x1000, 12), w.contents);
    } else {
      w.WriteBit(true); w.WriteBit(true); w.WriteBit(true); w.WriteBit(true);
      w.WriteBits(ToWord(dod) % TWO_TO_32, 32);
      Tagged(before, Tag(32), Bits(ToWord(dod) % TWO_TO_32, 32), w.contents);
    }
  }

  lemma FourFields(before: seq<bool>, f1: seq<bool>, f2: seq<bool>, f3: seq<bool>, after: seq<bool>)
    requires after == before + [true] + [true] + f1 + f2 + f3
    ensures after == before + ([true, true] + f1 + f2 + f3)
  {
  }

  lemma Tagged(before: seq<bool>, tag: seq<bool>, field: seq<bool>, after: seq<bool>)
    requires 2 <= |tag| <= 4
    requires after == before + [tag[0]] + [tag[1]] + (if |tag| > 2 then [tag[2]] else [])
             + (if |tag| > 3 then [tag[3]] else []) + field
    ensures after == before + (tag + field)
  {
  }

  /** Codes curBits against prevBits and returns the window now open. */
  method WriteXOR(w: BitWriter, curBits: Word, prevBits: Word, window: XorWindow) returns (window': XorWindow)
    requires w.Valid() && Proper(window)
    modifies w
    ensures w.Valid() && w.contents == old(w.contents) + EncodeXOR(Xor(curBits, prevBits), window)
    ensures window' == NextWindow(Xor(curBits, prevBits), window)
    ensures var x, size := Xor(curBits, prevBits), |w.contents| - |old(w.contents)|;
            if x == 0 then size == 1 && window' == window
            else if window.Window? && x < Pow2(64 - window.lz) && x % Pow2(64 - window.lz - window.mbc) == 0 then
              size == 2 + window.mbc && window' == window
            else size == 13 + 64 - LeadingZeros(x) - TrailingZeros(x)
                   && window' == Window(LeadingZeros(x), 64 - LeadingZeros(x) - TrailingZeros(x))
  {
    hide BytesToBits, Bits, XorNat, Xor, Shr, Shr64, Pow2, BitLen, LeadingZeros, TrailingZeros;
    var x := Xor(curBits, prevBits);
    if x > 0 { ReusesNumeric(x, window); }
    if x == 0 {
      w.WriteBit(false);
      return window;
    }
    ghost var before := w.contents;
    w.WriteBit(true);
    var lz, tz := LeadingZeros(x), TrailingZeros(x);
    var mbc := 64 - lz - tz;
    if window.Window? {
      var prevTZ := 64 - window.lz - window.mbc;
      if lz >= window.lz && tz >= prevTZ {
        w.WriteBit(false);
        w.WriteBits(Shr64(x, prevTZ), window.mbc);
        Tagged(before, [true, false], Bits(Shr64(x, prevTZ), window.mbc), w.contents);
        return window;
      }
    }
    w.WriteBit(true);
    w.WriteBits(lz, 5);
    w.WriteBits(mbc - 1, 6);
    w.WriteBits(Shr64(x, tz), mbc);
    FourFields(before, Bits(lz, 5), Bits(mbc - 1, 6), Bits(Shr64(x, tz), mbc), w.contents);
    window' := Window(lz, mbc);
  }

  method Encode(points: seq<Point>) returns (s: Streams)
    ensures s == Encoded(points)
  {
    hide Bits, Pack, TimestampBits, ValueBits;
    if |points| == 0 {
      return Streams([], []);
    }
    ghost var ts, vs := Times(points), Values(points);
    var wTS := new BitWriter();
    var wVal := new BitWriter();
    wTS.WriteBits(points[0].ts, 64);
    wVal.WriteBits(points[0].bits, 64);
    if |points| > 1 {
      WriteRest(points, wTS, wVal);
    } else {
      SinglePoint(ts, vs);
    }
    var timestamps := wTS.Flush();
    var values := wVal.Flush();
    s := Streams(timestamps, values);
  }

  lemma SinglePoint(ts: seq<Word>, vs: seq<Word>)
    requires |ts| == 1 && |vs| == 1
    ensures TimestampBits(ts) == [] + Bits(ts[0], 64) && ValueBits(vs) == [] + Bits(vs[0], 64)
  {
  }

  /** Everything after the first point. */
  method WriteRest(points: seq<Point>, wTS: BitWriter, wVal: BitWriter)
    requires |points| > 1 && wTS != wVal && wTS.Valid() && wVal.Valid()
    requires wTS.contents == Bits(points[0].ts, 64) && wVal.contents == Bits(points[0].bits, 64)
    modifies wTS, wVal
    ensures wTS.Valid() && wTS.contents == TimestampBits(Times(points))
    ensures wVal.Valid() && wVal.contents == ValueBits(Values(points))
  {
    hide EncodeXOR, NextWindow, WindowAt;
    ghost var ts, vs := Times(points), Values(points);
    var prevDelta := Sub64(ToSigned(points[1].ts), ToSigned(points[0].ts));
    wTS.WriteBits(ToWord(prevDelta), 64);
    NextXORCode(vs, 1, wVal.contents);
    var window := WriteXOR(wVal, points[1].bits, points[0].bits, NoWindow);
    for i := 2 to |points|
      invariant wTS.Valid() && wVal.Valid()
      invariant prevDelta == DeltaAt(ts, i - 1) && window == WindowAt(vs, i)
      invariant wTS.contents + DoDCodes(ts, i) == TimestampBits(ts)
      invariant wVal.contents + XORCodes(vs, i) == ValueBits(vs)
    {
      NextDoDCode(ts, i, wTS.contents);
      NextXORCode(vs, i, wVal.contents);
      var delta := Sub64(ToSigned(points[i].ts), ToSigned(points[i - 1].ts));
      WriteDoD(wTS, Sub64(delta, prevDelta));
      prevDelta := delta;
      window := WriteXOR(wVal, points[i].bits, points[i - 1].bits, window);
    }
    NoCodesLeft(ts, vs);
  }

  lemma NoCodesLeft(ts: seq<Word>, vs: seq<Word>)
    requires |ts| >= 2 && |vs| >= 1
    ensures DoDCodes(ts, |ts|) == [] && XORCodes(vs, |vs|) == []
  {
  }

  lemma NextDoDCode(ts: seq<Word>, k: nat, written: seq<bool>)
    requires 2 <= k < |ts|
    ensures written + DoDCodes(ts, k) == written + EncodeDoD(DoDAt(ts, k)) + DoDCodes(ts, k + 1)
  {
    DoDCodesStep(ts, k, []);
    assert DoDCodes(ts, k) + [] == DoDCodes(ts, k) && DoDCodes(ts, k + 1) + [] == DoDCodes(ts, k + 1);
  }

  lemma NextXORCode(vs: seq<Word>, k: nat, written: seq<bool>)
    requires 1 <= k < |vs|
    ensures written + XORCodes(vs, k)
         == written + EncodeXOR(Xor(vs[k], vs[k - 1]), WindowAt(vs, k)) + XORCodes(vs, k + 1)
    ensures WindowAt(vs, k + 1) == NextWindow(Xor(vs[k], vs[k - 1]), WindowAt(vs, k)) && WindowAt(vs, 1) == NoWindow
  {
    hide EncodeXOR, NextWindow, XORCodes, XorNat;
    WindowAtStep(vs, k);
    XORCodesStep(vs, k, []);
    assert XORCodes(vs, k) + [] == XORCodes(vs, k) && XORCodes(vs, k + 1) + [] == XORCodes(vs, k + 1);
  }

  // ---------------------------------------------------------------- reading

  /** The item a read produced, as the stream functions see it. */
  ghost predicate Reads<T>(p: Parsed<T>, ok: bool, v: T, rest: seq<bool>) {
    if ok then p == Parsed(v, rest) else p == Short
  }

  method ReadSignedField(r: BitReader, n: nat) returns (ok: bool, v: Int64)
    requires r.Valid() && n <= 64
    modifies r
    ensures r.Valid() && Reads(ReadSigned(old(r.remaining), n), ok, v, r.remaining)
  {
    var raw;
    ok, raw := r.ReadBits(n);
    v := SignExtend64(raw, n);
  }

  method ReadDoD(r: BitReader) returns (ok: bool, dod: Int64)
    requires r.Valid()
    modifies r
    ensures r.Valid() && Reads(DecodeDoD(old(r.remaining)), ok, dod, r.remaining)
  {
    hide ReadSigned;
    var b0, b1, b2, b3;
    ok, b0 := r.ReadBit();
    if !ok || !b0 {
      return ok, 0;
    }
    ok, b1 := r.ReadBit();
    if !ok {
      return ok, 0;
    }
    if !b1 {
      ok, dod := ReadSignedField(r, 7);
      return;
    }
    ok, b2 := r.ReadBit();
    if !ok {
      return ok, 0;
    }
    if !b2 {
      ok, dod := ReadSignedField(r, 9);
      return;
    }
    ok, b3 := r.ReadBit();
    if !ok {
      return ok, 0;
    }
    if !b3 {
      ok, dod := ReadSignedField(r, 12);
      return;
    }
    ok, dod := ReadSignedField(r, 32);
  }

  method ReadXOR(r: BitReader, prevBits: Word, window: XorWindow) returns (ok: bool, v: Word, window': XorWindow)
    requires r.Valid()
    modifies r
    ensures r.Valid() && Reads(DecodeXOR(old(r.remaining), prevBits, window), ok, (v, window'), r.remaining)
  {
    var changed, reuse;
    ok, changed := r.ReadBit();
    if !ok || !changed {
      return ok, prevBits, window;
    }
    ok, reuse := r.ReadBit();
    if !ok {
      return ok, 0, NoWindow;
    }
    if !reuse && window.Window? {
      var meaningful;
      ok, meaningful := r.ReadBits(window.mbc);
      v := Xor(prevBits, Shl64(meaningful, ShiftCount(window.lz, window.mbc)));
      return ok, v, window;
    }
    ok, v, window' := ReadNewWindow(r, prevBits);
  }

  method ReadNewWindow(r: BitReader, prevBits: Word) returns (ok: bool, v: Word, window': XorWindow)
    requires r.Valid()
    modifies r
    ensures r.Valid() && Reads(OpenWindow(old(r.remaining), prevBits), ok, (v, window'), r.remaining)
  {
    hide BytesToBits, Value, Shl64, Xor, Pow2;
    var lz, mbcBits, meaningful;
    ghost var s := r.remaining;
    ok, lz := r.ReadBits(5);
    if !ok {
      return false, 0, NoWindow;
    }
    ghost var s1 := r.remaining;
    ok, mbcBits := r.ReadBits(6);
    if !ok {
      return false, 0, NoWindow;
    }
    ValueBound(s[..5]); ValueBound(s1[..6]); SmallPowers();
    var mbc := mbcBits + 1;
    ok, meaningful := r.ReadBits(mbc);
    v := Xor(prevBits, Shl64(meaningful, ShiftCount(lz, mbc)));
    window' := Window(lz, mbc);
  }

  /** The decode loop so far: `done` items are out, and what the stream function
      makes of the rest decides what it makes of the whole. */
  ghost predicate Resumes(whole: Parsed<seq<Word>>, done: seq<Word>, tail: Parsed<seq<Word>>) {
    match tail
    case Short => whole == Short
    case Parsed(more, rest) => whole == Parsed(done + more, rest)
  }

  lemma AfterDoD(all: Parsed<seq<Word>>, done: seq<Word>, s: seq<bool>, n: nat, prevTS: Word, prevDelta: Int64,
                 ok: bool, dod: Int64, s1: seq<bool>)
    requires n > 0 && Resumes(all, done, DecodeDoDs(s, n, prevTS, prevDelta))
    requires Reads(DecodeDoD(s), ok, dod, s1)
    ensures !ok ==> all == Short
    ensures ok ==> var delta := Add64(prevDelta, dod);
                   var t := ToWord(Add64(ToSigned(prevTS), delta));
                   Resumes(all, done + [t], DecodeDoDs(s1, n - 1, t, delta))
  {
    if ok {
      var delta := Add64(prevDelta, dod);
      var t := ToWord(Add64(ToSigned(prevTS), delta));
      var tail := DecodeDoDs(s1, n - 1, t, delta);
      assert tail.Parsed? ==> done + ([t] + tail.value) == done + [t] + tail.value;
    }
  }

  lemma AfterXOR(all: Parsed<seq<Word>>, done: seq<Word>, s: seq<bool>, n: nat, prev: Word, w: XorWindow,
                 ok: bool, v: Word, w': XorWindow, s1: seq<bool>)
    requires n > 0 && Resumes(all, done, DecodeXORs(s, n, prev, w))
    requires Reads(DecodeXOR(s, prev, w), ok, (v, w'), s1)
    ensures !ok ==> all == Short
    ensures ok ==> Resumes(all, done + [v], DecodeXORs(s1, n - 1, v, w'))
  {
    if ok {
      var tail := DecodeXORs(s1, n - 1, v, w');
      assert tail.Parsed? ==> done + ([v] + tail.value) == done + [v] + tail.value;
    }
  }

  lemma AllRead(all: Parsed<seq<Word>>, done: seq<Word>, rest: seq<bool>)
    requires Resumes(all, done, Parsed([], rest))
    ensures all == Parsed(done, rest)
  {
    assert done + [] == done;
  }

  lemma FirstTimestamps(s: seq<bool>, n: nat)
    requires n > 1 && |s| >= 128
    ensures var t0, delta := Field(s[..64]), ToSigned(Field(s[64..][..64]));
            var t1 := ToWord(Add64(ToSigned(t0), delta));
            Resumes(ParseTimestamps(s, n), [t0, t1], DecodeDoDs(s[64..][64..], n - 2, t1, delta))
  {
    assert s[64..][..64] == s[64..128] && s[64..][64..] == s[128..];
  }

  lemma FirstValue(s: seq<bool>, n: nat)
    requires n > 0 && |s| >= 64
    ensures Resumes(ParseValues(s, n), [Field(s[..64])], DecodeXORs(s[64..], n - 1, Field(s[..64]), NoWindow))
  {
  }

  method DecodeStreams(streams: Streams, count: int) returns (d: Decoded)
    ensures d == Decode(streams, count)
  {
    if count <= 0 {
      return Points([]);
    }
    var rTS := new BitReader(streams.timestamps);
    var rVal := new BitReader(streams.values);
    ghost var tsBits, valBits := rTS.remaining, rVal.remaining;
    StreamTooShort(tsBits, count); StreamTooShort(valBits, count);
    var ok, t0 := rTS.ReadBits(64);
    if !ok {
      return Truncated;
    }
    var v0;
    ok, v0 := rVal.ReadBits(64);
    if !ok {
      return Truncated;
    }
    d := ReadPoints(rTS, rVal, count, t0, v0, tsBits, valBits);
  }

  /** Everything after the first timestamp and the first value. */
  method ReadPoints(rTS: BitReader, rVal: BitReader, count: int, t0: Word, v0: Word,
                    ghost tsBits: seq<bool>, ghost valBits: seq<bool>) returns (d: Decoded)
    requires count > 0 && rTS != rVal && rTS.Valid() && rVal.Valid()
    requires |tsBits| >= 64 && t0 == Field(tsBits[..64]) && rTS.remaining == tsBits[64..]
    requires |valBits| >= 64 && v0 == Field(valBits[..64]) && rVal.remaining == valBits[64..]
    modifies rTS, rVal
    ensures d == DecodeBits(tsBits, valBits, count)
  {
    hide BytesToBits, DecodeDoDs, DecodeXORs, ParseValues;
    ghost var allTS, allVals := ParseTimestamps(tsBits, count), ParseValues(valBits, count);
    ParsedLengths(tsBits, count); ParsedLengths(valBits, count);
    StreamTooShort(tsBits, count);
    FirstValue(valBits, count);
    if count == 1 {
      OnePoint(tsBits, valBits);
      assert Zip([t0], [v0]) == [Point(t0, v0)] by { ZipOne(t0, v0); }
      return Points([Point(t0, v0)]);
    }
    var ok, rawDelta := rTS.ReadBits(64);
    if !ok {
      return Truncated;
    }
    FirstTimestamps(tsBits, count);
    d := ReadRest(rTS, rVal, count, t0, v0, ToSigned(rawDelta), allTS, allVals);
  }

  lemma ZipOne(t: Word, v: Word)
    ensures Zip([t], [v]) == [Point(t, v)]
  {
  }

  lemma StreamTooShort(s: seq<bool>, n: nat)
    requires n > 0
    ensures |s| < 64 ==> ParseTimestamps(s, n) == Short && ParseValues(s, n) == Short
    ensures |s| < 128 && n > 1 ==> ParseTimestamps(s, n) == Short
  {
  }

  lemma OnePoint(tsBits: seq<bool>, valBits: seq<bool>)
    requires |tsBits| >= 64 && |valBits| >= 64
    ensures ParseTimestamps(tsBits, 1) == Parsed([Field(tsBits[..64])], tsBits[64..])
    ensures ParseValues(valBits, 1) == Parsed([Field(valBits[..64])], valBits[64..])
  {
    assert [Field(valBits[..64])] + [] == [Field(valBits[..64])];
  }

  /** Everything after the first value and the first two timestamps. */
  method ReadRest(rTS: BitReader, rVal: BitReader, count: int, t0: Word, v0: Word, delta1: Int64,
                  ghost allTS: Parsed<seq<Word>>, ghost allVals: Parsed<seq<Word>>) returns (d: Decoded)
    requires count > 1 && rTS != rVal && rTS.Valid() && rVal.Valid()
    requires allTS.Parsed? ==> |allTS.value| == count
    requires allVals.Parsed? ==> |allVals.value| == count
    requires var t1 := ToWord(Add64(ToSigned(t0), delta1));
             Resumes(allTS, [t0, t1], DecodeDoDs(rTS.remaining, count - 2, t1, delta1))
    requires Resumes(allVals, [v0], DecodeXORs(rVal.remaining, count - 1, v0, NoWindow))
    modifies rTS, rVal
    ensures d == if allTS.Parsed? && allVals.Parsed? then Points(Zip(allTS.value, allVals.value)) else Truncated
  {
    hide DecodeDoD, DecodeXOR, DecodeDoDs, DecodeXORs, BytesToBits, Resumes, Reads;
    var prevTS, prevDelta := ToWord(Add64(ToSigned(t0), delta1)), delta1;
    var ok: bool, prevBits: Word, window: XorWindow;
    ghost var s, prev, w := rVal.remaining, v0, NoWindow;
    ok, prevBits, window := ReadXOR(rVal, v0, NoWindow);
    AfterXOR(allVals, [v0], s, count - 1, v0, NoWindow, ok, prevBits, window, rVal.remaining);
    if !ok {
      return Truncated;
    }
    var pts := [Point(t0, v0), Point(prevTS, prevBits)];
    ghost var ts, vs := [t0, prevTS], [v0] + [prevBits];
    for i := 2 to count
      invariant rTS.Valid() && rVal.Valid() && |ts| == |vs| == i && pts == Zip(ts, vs)
      invariant Resumes(allTS, ts, DecodeDoDs(rTS.remaining, count - i, prevTS, prevDelta))
      invariant Resumes(allVals, vs, DecodeXORs(rVal.remaining, count - i, prevBits, window))
    {
      s := rTS.remaining;
      var dod;
      ok, dod := ReadDoD(rTS);
      AfterDoD(allTS, ts, s, count - i, prevTS, prevDelta, ok, dod, rTS.remaining);
      if !ok {
        return Truncated;
      }
      prevDelta := Add64(prevDelta, dod);
      prevTS := ToWord(Add64(ToSigned(prevTS), prevDelta));
      s, prev, w := rVal.remaining, prevBits, window;
      ok, prevBits, window := ReadXOR(rVal, prevBits, window);
      AfterXOR(allVals, vs, s, count - i, prev, w, ok, prevBits, window, rVal.remaining);
      if !ok {
        return Truncated;
      }
      pts := pts + [Point(prevTS, prevBits)];
      ts, vs := ts + [prevTS], vs + [prevBits];
    }
    NoneLeft(rTS.remaining, prevTS, prevDelta, rVal.remaining, prevBits, window);
    AllRead(allTS, ts, rTS.remaining); AllRead(allVals, vs, rVal.remaining);
    d := Points(pts);
  }

  lemma NoneLeft(s: seq<bool>, prevTS: Word, prevDelta: Int64, t: seq<bool>, prev: Word, w: XorWindow)
    ensures DecodeDoDs(s, 0, prevTS, prevDelta) == Parsed([], s)
    ensures DecodeXORs(t, 0, prev, w) == Parsed([], t)
  {
  }
}
