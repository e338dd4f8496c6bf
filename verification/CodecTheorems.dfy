/** The main results about the codec, stated on the byte streams of Encode and
    Decode and for every input. */
module CodecTheorems {
  import opened Words
  import opened BitStream
  import opened Codec
  import opened CodecProofs

  // ---------------------------------------------------------------- the exact domain

  /** The wrapping int64 difference between timestamp i and the one before it. */
  function DeltaAt(ts: seq<Word>, i: nat): Int64
    requires 1 <= i < |ts|
  {
    Sub64(ToSigned(ts[i]), ToSigned(ts[i - 1]))
  }

  function DoDAt(ts: seq<Word>, i: nat): Int64
    requires 2 <= i < |ts|
  {
    Sub64(DeltaAt(ts, i), DeltaAt(ts, i - 1))
  }

  /** From the third timestamp on, every delta of delta is a 32-bit number. */
  predicate TimesInRange(ts: seq<Word>) {
    forall i | 2 <= i < |ts| :: FitsInt32(DoDAt(ts, i))
  }

  /** The window open when value i is coded: that of the last change that was not
      inside the one open before it. */
  function WindowAt(vs: seq<Word>, i: nat): (w: XorWindow)
    requires 1 <= i <= |vs|
    ensures Proper(w)
  {
    if i == 1 then NoWindow
    else
      var x, w := Xor(vs[i - 1], vs[i - 2]), WindowAt(vs, i - 1);
      if x == 0 || InWindow(x, w) then w else Window(LeadingZeros(x), 64 - LeadingZeros(x) - TrailingZeros(x))
  }

  /** The encoder keeps just this window. */
  lemma WindowAtStep(vs: seq<Word>, k: nat)
    requires 1 <= k < |vs|
    ensures WindowAt(vs, k + 1) == NextWindow(Xor(vs[k], vs[k - 1]), WindowAt(vs, k))
  {
    hide XorNat;
    var x := Xor(vs[k], vs[k - 1]);
    if x > 0 { ReusesNumeric(x, WindowAt(vs, k)); }
  }

  /** Every XOR lies in the open window or reaches the upper half of the word. */
  predicate ValuesInRange(vs: seq<Word>) {
    forall i | 1 <= i < |vs| :: WindowFits(Xor(vs[i], vs[i - 1]), WindowAt(vs, i))
  }

  /** The inputs the codec is lossless on. */
  predicate InDomain(pts: seq<Point>) {
    TimesInRange(Times(pts)) && ValuesInRange(Values(pts))
  }

  // ---------------------------------------------------------------- streams of codes

  lemma DeltaStep(prevTS: Word, prevDelta: Int64, t: Word, dod: Int64)
    ensures var delta := Sub64(ToSigned(t), ToSigned(prevTS));
            var back := Add64(prevDelta, dod);
            dod == Sub64(delta, prevDelta) <==> ToWord(Add64(ToSigned(prevTS), back)) == t
    ensures dod == Sub64(Sub64(ToSigned(t), ToSigned(prevTS)), prevDelta)
        ==> Add64(prevDelta, dod) == Sub64(ToSigned(t), ToSigned(prevTS))
  {
  }

  lemma ConsEqual<T>(a: T, x: seq<T>, s: seq<T>, k: nat)
    requires k < |s|
    ensures [a] + x == s[k..] <==> a == s[k] && x == s[k + 1..]
  {
    assert s[k..] == [s[k]] + s[k + 1..];
    if [a] + x == s[k..] {
      assert a == s[k] && x == ([a] + x)[1..] == s[k..][1..];
    }
  }

  predicate TimesFrom(ts: seq<Word>, k: nat)
    requires k >= 2
  {
    forall i | k <= i < |ts| :: FitsInt32(DoDAt(ts, i))
  }

  lemma TimesFromStep(ts: seq<Word>, k: nat)
    requires 2 <= k < |ts|
    ensures TimesFrom(ts, k) <==> FitsInt32(DoDAt(ts, k)) && TimesFrom(ts, k + 1)
  {
  }

  /** The codes of timestamps k, k + 1, ... */
  function DoDCodes(ts: seq<Word>, k: nat): seq<bool>
    requires 2 <= k <= |ts|
  {
    EncodeDoDs(ts[k..], ts[k - 1], DeltaAt(ts, k - 1))
  }

  lemma DoDCodesStep(ts: seq<Word>, k: nat, rest: seq<bool>)
    requires 2 <= k < |ts|
    ensures DoDCodes(ts, k) + rest == EncodeDoD(DoDAt(ts, k)) + (DoDCodes(ts, k + 1) + rest)
  {
    assert ts[k..][1..] == ts[k + 1..];
  }

  lemma DecodeDoDsStep(s: seq<bool>, n: nat, prevTS: Word, prevDelta: Int64,
                       dod: Int64, s1: seq<bool>, more: seq<Word>, rest: seq<bool>)
    requires n > 0 && DecodeDoD(s) == Parsed(dod, s1)
    requires var delta := Add64(prevDelta, dod);
             DecodeDoDs(s1, n - 1, ToWord(Add64(ToSigned(prevTS), delta)), delta) == Parsed(more, rest)
    ensures DecodeDoDs(s, n, prevTS, prevDelta)
         == Parsed([ToWord(Add64(ToSigned(prevTS), Add64(prevDelta, dod)))] + more, rest)
  {
  }

  lemma NoDoDs(ts: seq<Word>, prevTS: Word, prevDelta: Int64, rest: seq<bool>)
    requires |ts| >= 2
    ensures DecodeDoDs(DoDCodes(ts, |ts|) + rest, 0, prevTS, prevDelta) == Parsed([], rest)
    ensures TimesFrom(ts, |ts|)
  {
    assert DoDCodes(ts, |ts|) + rest == rest;
  }

  /** From timestamp k on: the decoder ends exactly where the encoder ended,
      whatever its own state, and from the encoder's state it returns the same
      timestamps exactly when they are in range. */
  lemma {:induction false} DoDsCode(ts: seq<Word>, k: nat, prevTS: Word, prevDelta: Int64, rest: seq<bool>)
      returns (back: seq<Word>)
    requires 2 <= k <= |ts|
    ensures DecodeDoDs(DoDCodes(ts, k) + rest, |ts| - k, prevTS, prevDelta) == Parsed(back, rest)
    ensures |back| == |ts| - k
    ensures prevTS == ts[k - 1] && prevDelta == DeltaAt(ts, k - 1) ==> (back == ts[k..] <==> TimesFrom(ts, k))
    decreases |ts| - k
  {
    hide DecodeDoD, EncodeDoD, DecodeDoDs, DoDCodes, TimesFrom, FitsInt32, Narrowed;
    if k == |ts| {
      NoDoDs(ts, prevTS, prevDelta, rest);
      back := [];
    } else {
      var dod := DoDAt(ts, k);
      TimesFromStep(ts, k);
      DoDCodesStep(ts, k, rest);
      DoDCode(dod, DoDCodes(ts, k + 1) + rest);
      NarrowedExact(dod);
      DeltaStep(prevTS, prevDelta, ts[k], Narrowed(dod));
      var delta := Add64(prevDelta, Narrowed(dod));
      var t := ToWord(Add64(ToSigned(prevTS), delta));
      var more := DoDsCode(ts, k + 1, t, delta, rest);
      ConsEqual(t, more, ts, k);
      DecodeDoDsStep(DoDCodes(ts, k) + rest, |ts| - k, prevTS, prevDelta, Narrowed(dod), DoDCodes(ts, k + 1) + rest,
          more, rest);
      back := [t] + more;
    }
  }

  predicate ValuesFrom(vs: seq<Word>, k: nat)
    requires k >= 1
  {
    forall i | k <= i < |vs| :: WindowFits(Xor(vs[i], vs[i - 1]), WindowAt(vs, i))
  }

  lemma ValuesFromStep(vs: seq<Word>, k: nat)
    requires 1 <= k < |vs|
    ensures ValuesFrom(vs, k) <==> WindowFits(Xor(vs[k], vs[k - 1]), WindowAt(vs, k)) && ValuesFrom(vs, k + 1)
  {
  }

  function XORCodes(vs: seq<Word>, k: nat): seq<bool>
    requires 1 <= k <= |vs|
  {
    EncodeXORs(vs[k..], vs[k - 1], WindowAt(vs, k))
  }

  lemma XORCodesStep(vs: seq<Word>, k: nat, rest: seq<bool>)
    requires 1 <= k < |vs|
    ensures XORCodes(vs, k) + rest == EncodeXOR(Xor(vs[k], vs[k - 1]), WindowAt(vs, k)) + (XORCodes(vs, k + 1) + rest)
  {
    hide EncodeXOR, NextWindow, WindowAt, Xor;
    assert vs[k..][1..] == vs[k + 1..];
    WindowAtStep(vs, k);
  }

  lemma DecodeXORsStep(s: seq<bool>, n: nat, prev: Word, w: XorWindow,
                       v: Word, w': XorWindow, s1: seq<bool>, more: seq<Word>, rest: seq<bool>)
    requires n > 0 && DecodeXOR(s, prev, w) == Parsed((v, w'), s1)
    requires DecodeXORs(s1, n - 1, v, w') == Parsed(more, rest)
    ensures DecodeXORs(s, n, prev, w) == Parsed([v] + more, rest)
  {
  }

  lemma NoXORs(vs: seq<Word>, prev: Word, wd: XorWindow, rest: seq<bool>)
    requires |vs| >= 1
    ensures DecodeXORs(XORCodes(vs, |vs|) + rest, 0, prev, wd) == Parsed([], rest)
    ensures ValuesFrom(vs, |vs|)
  {
    assert XORCodes(vs, |vs|) + rest == rest;
  }

  /** The same for values: cursors agree always, contents exactly in range. */
  lemma {:induction false} XORsCode(vs: seq<Word>, k: nat, prev: Word, wd: XorWindow, rest: seq<bool>)
      returns (back: seq<Word>)
    requires 1 <= k <= |vs| && InStep(WindowAt(vs, k), wd)
    ensures DecodeXORs(XORCodes(vs, k) + rest, |vs| - k, prev, wd) == Parsed(back, rest)
    ensures |back| == |vs| - k
    ensures prev == vs[k - 1] && wd == WindowAt(vs, k) ==> (back == vs[k..] <==> ValuesFrom(vs, k))
    decreases |vs| - k
  {
    hide DecodeXOR, ValuesFrom, XorNat, WindowAt, NextWindow, EncodeXOR, WindowFits;
    if k == |vs| {
      NoXORs(vs, prev, wd, rest);
      back := [];
    } else {
      var x := Xor(vs[k], vs[k - 1]);
      XORCodesStep(vs, k, rest); ValuesFromStep(vs, k); WindowAtStep(vs, k);
      var v, wd' := XORCode(x, WindowAt(vs, k), prev, wd, XORCodes(vs, k + 1) + rest);
      XorNatCancel(vs[k], vs[k - 1]);
      var more := XORsCode(vs, k + 1, v, wd', rest);
      ConsEqual(v, more, vs, k);
      DecodeXORsStep(XORCodes(vs, k) + rest, |vs| - k, prev, wd, v, wd', XORCodes(vs, k + 1) + rest, more, rest);
      back := [v] + more;
    }
  }

  lemma WordField(v: Word, rest: seq<bool>)
    ensures |Bits(v, 64) + rest| >= 64
    ensures Field((Bits(v, 64) + rest)[..64]) == v && (Bits(v, 64) + rest)[64..] == rest
  {
    BitLenWord(v); BitsExact(v, 64);
    TakeDrop(Bits(v, 64), rest);
  }

  lemma TwoFields(a: Word, b: Word, rest: seq<bool>)
    ensures var s := Bits(a, 64) + Bits(b, 64) + rest;
            |s| >= 128 && Field(s[..64]) == a && Field(s[64..128]) == b && s[128..] == rest
  {
    var s := Bits(a, 64) + Bits(b, 64) + rest;
    assert s[..64] == Bits(a, 64) && s[64..128] == Bits(b, 64) && s[128..] == rest;
    BitLenWord(a); BitsExact(a, 64);
    BitLenWord(b); BitsExact(b, 64);
  }

  lemma TimestampStream(ts: seq<Word>, rest: seq<bool>) returns (back: seq<Word>)
    requires ts != []
    ensures ParseTimestamps(TimestampBits(ts) + rest, |ts|) == Parsed(back, rest)
    ensures |back| == |ts| && back[0] == ts[0] && (back == ts <==> TimesInRange(ts))
  {
    if |ts| == 1 {
      WordField(ts[0], rest);
      back := [ts[0]];
      assert back == ts;
    } else {
      back := LongTimestampStream(ts, rest);
    }
  }

  lemma LongTimestampStream(ts: seq<Word>, rest: seq<bool>) returns (back: seq<Word>)
    requires |ts| >= 2
    ensures ParseTimestamps(TimestampBits(ts) + rest, |ts|) == Parsed(back, rest)
    ensures |back| == |ts| && back[0] == ts[0] && (back == ts <==> TimesInRange(ts))
  {
    hide DecodeDoDs, EncodeDoDs, DoDAt;
    var delta := DeltaAt(ts, 1);
    var dods := DoDCodes(ts, 2) + rest;
    assert TimestampBits(ts) + rest == Bits(ts[0], 64) + Bits(ToWord(delta), 64) + dods;
    TwoFields(ts[0], ToWord(delta), dods);
    assert ToSigned(ToWord(delta)) == delta;
    DeltaStep(ts[0], 0, ts[1], delta);
    assert ToWord(Add64(ToSigned(ts[0]), delta)) == ts[1];
    var more := DoDsCode(ts, 2, ts[1], delta, rest);
    back := [ts[0], ts[1]] + more;
    assert ts == [ts[0], ts[1]] + ts[2..];
    assert back[2..] == more;
  }

  lemma ValueStream(vs: seq<Word>, rest: seq<bool>) returns (back: seq<Word>)
    requires vs != []
    ensures ParseValues(ValueBits(vs) + rest, |vs|) == Parsed(back, rest)
    ensures |back| == |vs| && back[0] == vs[0] && (back == vs <==> ValuesInRange(vs))
  {
    var xors := XORCodes(vs, 1) + rest;
    assert ValueBits(vs) + rest == Bits(vs[0], 64) + xors;
    WordField(vs[0], xors);
    back := XORsCode(vs, 1, vs[0], NoWindow, rest);
    ConsEqual(vs[0], back, vs, 0);
    back := [vs[0]] + back;
  }

  // ---------------------------------------------------------------- layout

  /** The streams in numbers: the first timestamp, the first difference modulo 2^64
      and the first value as 64-bit fields, then one code per further item. */
  lemma StreamLayout(ts: seq<Word>, vs: seq<Word>)
    requires ts != [] && vs != []
    ensures var t, v := TimestampBits(ts), ValueBits(vs);
            && |t| >= 64 && Value(t[..64]) == ts[0] && |v| >= 64 && Value(v[..64]) == vs[0]
            && v[64..] == XORCodes(vs, 1)
            && (|ts| == 1 ==> |t| == 64)
            && (|ts| >= 2 ==> |t| >= 128 && Value(t[64..128]) == (ts[1] - ts[0]) % TWO_TO_64
                              && t[128..] == DoDCodes(ts, 2))
  {
    hide Bits, Value, EncodeDoDs, EncodeXORs, BitLen;
    WordBits(ts[0]); WordBits(vs[0]);
    TakeDrop(Bits(vs[0], 64), XORCodes(vs, 1));
    if |ts| == 1 {
      assert Bits(ts[0], 64)[..64] == Bits(ts[0], 64);
    } else {
      var delta := Sub64(ToSigned(ts[1]), ToSigned(ts[0]));
      WordBits(ToWord(delta));
      TwoFields(ts[0], ToWord(delta), DoDCodes(ts, 2));
      assert ToWord(delta) == (ts[1] - ts[0]) % TWO_TO_64;
    }
  }

  lemma WordBits(v: Word)
    ensures Value(Bits(v, 64)) == v
  {
    BitLenWord(v); BitsExact(v, 64);
  }

  // ---------------------------------------------------------------- round trip

  /** Decode(Encode(pts), len(pts)) never fails, returns as many points, and
      returns the same points, bit for bit, exactly on the codec's domain. Neither
      stream spoils the other: the timestamps come back exactly when they are in
      range, whatever the values are, and the values whatever the timestamps are. The
      first point always comes back. */
  lemma RoundTrip(pts: seq<Point>)
    ensures var d := Decode(Encoded(pts), |pts|);
            && d.Points? && |d.points| == |pts| && (d.points == pts <==> InDomain(pts))
            && (Times(d.points) == Times(pts) <==> TimesInRange(Times(pts)))
            && (Values(d.points) == Values(pts) <==> ValuesInRange(Values(pts)))
            && (pts != [] ==> d.points[0] == pts[0])
  {
    hide BytesToBits, Pack, TimestampBits, ValueBits, ParseValues, TimesInRange;
    if pts == [] {
      EmptyInDomain();
    } else {
      var ts, vs := Times(pts), Values(pts);
      var pad1 := PackedBits(TimestampBits(ts));
      var pad2 := PackedBits(ValueBits(vs));
      var ts' := TimestampStream(ts, Zeros(pad1));
      var vs' := ValueStream(vs, Zeros(pad2));
      ZipEqual(pts, ts', vs');
    }
  }

  lemma EmptyInDomain()
    ensures InDomain([])
  {
  }

  lemma ZipEqual(pts: seq<Point>, ts: seq<Word>, vs: seq<Word>)
    requires |ts| == |vs| == |pts|
    ensures Zip(ts, vs) == pts <==> ts == Times(pts) && vs == Values(pts)
    ensures Times(Zip(ts, vs)) == ts && Values(Zip(ts, vs)) == vs
  {
    var z := Zip(ts, vs);
    assert z == pts ==> forall i | 0 <= i < |pts| :: ts[i] == z[i].ts && vs[i] == z[i].bits;
  }

  // ---------------------------------------------------------------- cursors, truncation

  /** On every input, in range or not, the decoder reads exactly the bits the
      encoder wrote and leaves only the padding, fewer than eight bits. */
  lemma CursorAgreement(pts: seq<Point>)
    requires pts != []
    ensures var s := Encoded(pts);
            var p, q := ParseTimestamps(BytesToBits(s.timestamps), |pts|), ParseValues(BytesToBits(s.values), |pts|);
            && p.Parsed? && |p.rest| < 8 && 8 * |s.timestamps| == |TimestampBits(Times(pts))| + |p.rest|
            && q.Parsed? && |q.rest| < 8 && 8 * |s.values| == |ValueBits(Values(pts))| + |q.rest|
  {
    var pad1 := PackedBits(TimestampBits(Times(pts)));
    var pad2 := PackedBits(ValueBits(Values(pts)));
    var ts := TimestampStream(Times(pts), Zeros(pad1));
    var vs := ValueStream(Values(pts), Zeros(pad2));
  }

  // Reading a longer stream gives the same item and leaves the longer remainder.

  lemma ReadSignedLocal(p: seq<bool>, n: nat, q: seq<bool>)
    requires n <= 64 && ReadSigned(p, n).Parsed?
    ensures ReadSigned(p + q, n) == Parsed(ReadSigned(p, n).value, ReadSigned(p, n).rest + q)
  {
    assert (p + q)[..n] == p[..n] && (p + q)[n..] == p[n..] + q;
  }

  lemma DropLocal(p: seq<bool>, q: seq<bool>, n: nat)
    requires n <= |p|
    ensures (p + q)[n..] == p[n..] + q && (p + q)[..n] == p[..n]
  {
  }

  lemma DecodeDoDLocal(p: seq<bool>, q: seq<bool>)
    requires DecodeDoD(p).Parsed?
    ensures DecodeDoD(p + q) == Parsed(DecodeDoD(p).value, DecodeDoD(p).rest + q)
  {
    hide ReadSigned;
    DropLocal(p, q, 1);
    if p[0] {
      DropLocal(p, q, 2);
      if !p[1] {
        ReadSignedLocal(p[2..], 7, q);
      } else {
        DropLocal(p, q, 3);
        if !p[2] {
          ReadSignedLocal(p[3..], 9, q);
        } else {
          DropLocal(p, q, 4);
          ReadSignedLocal(p[4..], if p[3] then 32 else 12, q);
        }
      }
    }
  }

  lemma OpenWindowLocal(p: seq<bool>, q: seq<bool>, prev: Word)
    requires OpenWindow(p, prev).Parsed?
    ensures OpenWindow(p + q, prev) == Parsed(OpenWindow(p, prev).value, OpenWindow(p, prev).rest + q)
  {
    hide Value, Xor, Shl64;
    DropLocal(p, q, 5);
    DropLocal(p[5..], q, 6);
    DropLocal(p[5..][6..], q, Field(p[5..][..6]) + 1);
  }

  lemma DecodeXORLocal(p: seq<bool>, q: seq<bool>, prev: Word, w: XorWindow)
    requires DecodeXOR(p, prev, w).Parsed?
    ensures DecodeXOR(p + q, prev, w) == Parsed(DecodeXOR(p, prev, w).value, DecodeXOR(p, prev, w).rest + q)
  {
    hide OpenWindow, Xor, Shl64, Value;
    DropLocal(p, q, 1);
    if p[0] {
      DropLocal(p, q, 2);
      if !p[1] && w.Window? {
        DropLocal(p[2..], q, w.mbc);
      } else {
        OpenWindowLocal(p[2..], q, prev);
      }
    }
  }

  lemma {:induction false} DecodeDoDsLocal(p: seq<bool>, q: seq<bool>, n: nat, prevTS: Word, prevDelta: Int64)
    requires DecodeDoDs(p, n, prevTS, prevDelta).Parsed?
    ensures var d := DecodeDoDs(p, n, prevTS, prevDelta);
            DecodeDoDs(p + q, n, prevTS, prevDelta) == Parsed(d.value, d.rest + q)
    decreases n
  {
    hide DecodeDoD;
    if n > 0 {
      DecodeDoDLocal(p, q);
      var delta := Add64(prevDelta, DecodeDoD(p).value);
      DecodeDoDsLocal(DecodeDoD(p).rest, q, n - 1, ToWord(Add64(ToSigned(prevTS), delta)), delta);
    }
  }

  lemma {:induction false} DecodeXORsLocal(p: seq<bool>, q: seq<bool>, n: nat, prev: Word, w: XorWindow)
    requires DecodeXORs(p, n, prev, w).Parsed?
    ensures var d := DecodeXORs(p, n, prev, w);
            DecodeXORs(p + q, n, prev, w) == Parsed(d.value, d.rest + q)
    decreases n
  {
    hide DecodeXOR;
    if n > 0 {
      DecodeXORLocal(p, q, prev, w);
      var d := DecodeXOR(p, prev, w);
      DecodeXORsLocal(d.rest, q, n - 1, d.value.0, d.value.1);
    }
  }

  lemma ParseTimestampsLocal(p: seq<bool>, q: seq<bool>, n: nat)
    requires n > 0 && ParseTimestamps(p, n).Parsed?
    ensures ParseTimestamps(p + q, n) == Parsed(ParseTimestamps(p, n).value, ParseTimestamps(p, n).rest + q)
  {
    hide DecodeDoDs;
    DropLocal(p, q, 64);
    if n > 1 {
      DropLocal(p, q, 128);
      assert (p + q)[64..128] == p[64..128];
      var t0, delta := Field(p[..64]), ToSigned(Field(p[64..128]));
      DecodeDoDsLocal(p[128..], q, n - 2, ToWord(Add64(ToSigned(t0), delta)), delta);
    }
  }

  lemma ParseValuesLocal(p: seq<bool>, q: seq<bool>, n: nat)
    requires n > 0 && ParseValues(p, n).Parsed?
    ensures ParseValues(p + q, n) == Parsed(ParseValues(p, n).value, ParseValues(p, n).rest + q)
  {
    hide DecodeXORs;
    DropLocal(p, q, 64);
    DecodeXORsLocal(p[64..], q, n - 1, Field(p[..64]), NoWindow);
  }

  /** Any strict byte prefix of either stream of a nonempty input is reported as
      truncated, whatever the other stream holds. */
  lemma TruncationDetected(pts: seq<Point>, k: nat, other: seq<Byte>)
    requires pts != []
    ensures k < |Encoded(pts).timestamps| ==> Decode(Streams(Encoded(pts).timestamps[..k], other), |pts|) == Truncated
    ensures k < |Encoded(pts).values| ==> Decode(Streams(other, Encoded(pts).values[..k]), |pts|) == Truncated
  {
    hide ParseTimestamps, ParseValues, Encoded;
    CursorAgreement(pts);
    var s := Encoded(pts);
    if k < |s.timestamps| {
      SplitBits(s.timestamps, k);
      if ParseTimestamps(BytesToBits(s.timestamps[..k]), |pts|).Parsed? {
        ParseTimestampsLocal(BytesToBits(s.timestamps[..k]), BytesToBits(s.timestamps[k..]), |pts|);
      }
    }
    if k < |s.values| {
      SplitBits(s.values, k);
      if ParseValues(BytesToBits(s.values[..k]), |pts|).Parsed? {
        ParseValuesLocal(BytesToBits(s.values[..k]), BytesToBits(s.values[k..]), |pts|);
      }
    }
  }

  lemma SplitBits(bs: seq<Byte>, k: nat)
    requires k < |bs|
    ensures BytesToBits(bs) == BytesToBits(bs[..k]) + BytesToBits(bs[k..])
  {
    BytesToBitsAppend(bs[..k], bs[k..]);
    assert bs == bs[..k] + bs[k..];
  }

  // ---------------------------------------------------------------- sizes

  lemma {:induction false} DoDCodesSize(ts: seq<Word>, k: nat)
    requires 2 <= k <= |ts|
    ensures |ts| - k <= |DoDCodes(ts, k)| <= 36 * (|ts| - k)
    ensures |DoDCodes(ts, k)| == |ts| - k <==> forall i | k <= i < |ts| :: DoDAt(ts, i) == 0
    decreases |ts| - k
  {
    hide EncodeDoD, DoDAt;
    if k < |ts| {
      DoDCodesStep(ts, k, []);
      DoDCodesSize(ts, k + 1);
      DoDSize(DoDAt(ts, k));
    }
  }

  lemma DoDSize(dod: Int64)
    ensures 1 <= |EncodeDoD(dod)| <= 36 && (|EncodeDoD(dod)| == 1 <==> dod == 0)
  {
  }

  lemma XORSize(x: Word, w: XorWindow)
    requires Proper(w)
    ensures 1 <= |EncodeXOR(x, w)| <= 77 && (|EncodeXOR(x, w)| == 1 <==> x == 0)
  {
  }

  lemma {:induction false} XORCodesSize(vs: seq<Word>, k: nat)
    requires 1 <= k <= |vs|
    ensures |vs| - k <= |XORCodes(vs, k)| <= 77 * (|vs| - k)
    ensures |XORCodes(vs, k)| == |vs| - k <==> forall i | k <= i < |vs| :: vs[i] == vs[i - 1]
    decreases |vs| - k
  {
    hide XorNat, EncodeXOR, NextWindow, WindowAt;
    if k == |vs| {
      NoXORs(vs, 0, NoWindow, []);
    } else {
      var x, w := Xor(vs[k], vs[k - 1]), WindowAt(vs, k);
      XORCodesStep(vs, k, []);
      XORCodesSize(vs, k + 1);
      XorNatCancel(vs[k], vs[k - 1]);
      XORSize(x, w);
    }
  }

  /** Stream lengths in bits before padding: the worst case, and the best case,
      which is reached exactly by evenly spaced timestamps and by constant values. */
  lemma SizeBounds(pts: seq<Point>)
    requires |pts| >= 2
    ensures var n, ts := |pts|, Times(pts);
            && 128 + (n - 2) <= |TimestampBits(ts)| <= 128 + 36 * (n - 2)
            && (|TimestampBits(ts)| == 128 + (n - 2) <==> forall i | 2 <= i < n :: DeltaAt(ts, i) == DeltaAt(ts, i - 1))
    ensures var n, vs := |pts|, Values(pts);
            && 64 + (n - 1) <= |ValueBits(vs)| <= 64 + 77 * (n - 1)
            && (|ValueBits(vs)| == 64 + (n - 1) <==> forall i | 1 <= i < n :: vs[i] == vs[i - 1])
  {
    var n, ts, vs := |pts|, Times(pts), Values(pts);
    DoDCodesSize(ts, 2);
    XORCodesSize(vs, 1);
    assert forall i | 2 <= i < n :: DoDAt(ts, i) == 0 <==> DeltaAt(ts, i) == DeltaAt(ts, i - 1);
    assert |ValueBits(vs)| == 64 + |XORCodes(vs, 1)|;
  }
}
