/** The chunk file: a 29-byte header, a length-prefixed pair of codec streams
    and a CRC-32 of everything before it. */
module ChunkFile {
  import opened Words
  import opened BitStream
  import opened Codec
  import opened CodecTheorems

  const HEADER_SIZE: nat := 29
  const FORMAT_VERSION: Byte := 1
  /** "CHRN" */
  const MAGIC: seq<Byte> := [0x43, 0x48, 0x52, 0x4E]

  // ---------------------------------------------------------------- checksum

  /** One bit of the reflected CRC-32 (IEEE 802.3) division. */
  function CrcBit(c: Word32): Word32 {
    Pow2Values(); XorBound(c / 2, 0xEDB88320, 32);
    if c % 2 == 1 then XorNat(c / 2, 0xEDB88320) else c / 2
  }

  function CrcByte(c: Word32, n: nat): Word32
    decreases n
  {
    if n == 0 then c else CrcByte(CrcBit(c), n - 1)
  }

  function CrcUpdate(c: Word32, bs: seq<Byte>): Word32
    decreases bs
  {
    if bs == [] then c
    else
      Pow2Values(); XorBound(c, bs[0], 32);
      CrcUpdate(CrcByte(XorNat(c, bs[0]), 8), bs[1..])
  }

  function Crc32(bs: seq<Byte>): Word32 {
    0xFFFF_FFFF - CrcUpdate(0xFFFF_FFFF, bs)
  }

  /** What pins the division: it halves an even register, takes 1 to the reflected
      generator polynomial, and is linear. */
  lemma CrcBitLaws(c: Word32, a: Word32, b: Word32)
    ensures c % 2 == 0 ==> CrcBit(c) == c / 2
    ensures CrcBit(1) == 0xEDB8_8320
    ensures XorNat(a, b) < TWO_TO_32 && CrcBit(XorNat(a, b)) == XorNat(CrcBit(a), CrcBit(b))
  {
    hide XorNat, Pow2;
    XorZero(0xEDB88320);
    Pow2Values(); XorBound(a, b, 32);
    CrcLinear(a, b);
  }

  /** An even register of n zero bits is shifted out in n steps. */
  lemma {:induction false} ShiftedOut(v: nat, n: nat)
    requires v * Pow2(n) < TWO_TO_32 && v < TWO_TO_32
    ensures CrcByte(v * Pow2(n), n) == v
    decreases n
  {
    hide XorNat;
    if n > 0 {
      var half := v * Pow2(n - 1);
      assert v * Pow2(n) == 2 * half;
      assert CrcBit(2 * half) == half;
      ShiftedOut(v, n - 1);
    }
  }

  /** What pins the start and the end: the checksums of nothing and of 32 ones. */
  lemma CrcOfOnes()
    ensures Crc32([]) == 0 && Crc32([0xFF, 0xFF, 0xFF, 0xFF]) == 0xFFFF_FFFF
  {
    hide XorNat, CrcByte, Pow2;
    OnesByte(0xFF_FFFF, [0xFF, 0xFF, 0xFF]); OnesByte(0xFFFF, [0xFF, 0xFF]); OnesByte(0xFF, [0xFF]); OnesByte(0, []);
    assert [0xFF] + [0xFF, 0xFF, 0xFF] == [0xFF, 0xFF, 0xFF, 0xFF] && [0xFF] + [0xFF, 0xFF] == [0xFF, 0xFF, 0xFF];
    assert [0xFF] + [0xFF] == [0xFF, 0xFF] && [0xFF] + [] == [0xFF];
  }

  lemma OnesByte(v: Word32, more: seq<Byte>)
    requires v < 0x100_0000
    ensures CrcUpdate(256 * v + 0xFF, [0xFF] + more) == CrcUpdate(v, more)
  {
    hide XorNat, CrcByte;
    Pow2Values();
    ClearLow(v, 8);
    ShiftedOut(v, 8);
    assert ([0xFF] + more)[1..] == more;
  }

  lemma {:induction false} ClearLow(v: nat, n: nat)
    ensures XorNat(v * Pow2(n) + Pow2(n) - 1, Pow2(n) - 1) == v * Pow2(n)
  {
    if n == 0 {
      XorZero(v);
    } else {
      var m := Pow2(n - 1);
      assert v * Pow2(n) == 2 * (v * m);
      ClearLow(v, n - 1);
      assert (v * Pow2(n) + Pow2(n) - 1) / 2 == v * m + m - 1 && (Pow2(n) - 1) / 2 == m - 1;
    }
  }

  lemma CrcLinear(a: Word32, b: Word32)
    requires XorNat(a, b) < TWO_TO_32
    ensures CrcBit(XorNat(a, b)) == XorNat(CrcBit(a), CrcBit(b))
  {
    hide BitOf, XorNat, Pow2;
    Pow2Values(); XorBound(CrcBit(a), CrcBit(b), 32);
    forall j | 0 <= j < 32 ensures BitOf(CrcBit(XorNat(a, b)), j) == BitOf(XorNat(CrcBit(a), CrcBit(b)), j) {
      XorBit(CrcBit(a), CrcBit(b), j);
      CrcBitOf(a, j); CrcBitOf(b, j); CrcBitOf(XorNat(a, b), j);
      XorHalves(a, b); XorBit(a / 2, b / 2, j);
    }
    BitsDecide(CrcBit(XorNat(a, b)), XorNat(CrcBit(a), CrcBit(b)), 32);
  }

  lemma CrcBitOf(c: Word32, j: nat)
    ensures BitOf(CrcBit(c), j) <==> BitOf(c / 2, j) != (c % 2 == 1 && BitOf(0xEDB8_8320, j))
  {
    hide BitOf, XorNat;
    XorBit(c / 2, 0xEDB88320, j);
  }

  /** A register step loses nothing: its top bit tells which case it was. */
  lemma CrcBitInjective(c: Word32, d: Word32)
    requires CrcBit(c) == CrcBit(d)
    ensures c == d
  {
    hide XorNat, Shr;
    TopBit(c); TopBit(d);
    if c % 2 == 1 {
      XorCommutes(c / 2, 0xEDB88320); XorCommutes(d / 2, 0xEDB88320);
      XorNatInjective(0xEDB88320, c / 2, d / 2);
    }
  }

  lemma TopBit(c: Word32)
    ensures CrcBit(c) >= 0x8000_0000 <==> c % 2 == 1
  {
    hide XorNat, Shr;
    Pow2Values(); Pow2Add(31, 1);
    assert Pow2(1) == 2 && Pow2(31) == 0x8000_0000;
    var x := XorNat(c / 2, 0xEDB88320);
    XorShr(c / 2, 0xEDB88320, 31);
    ShrIsDivide(x, 31); ShrIsDivide(c / 2, 31); ShrIsDivide(0xEDB88320, 31);
    XorZero(1);
  }

  lemma {:induction false} CrcByteInjective(c: Word32, d: Word32, n: nat)
    requires CrcByte(c, n) == CrcByte(d, n)
    ensures c == d
    decreases n
  {
    hide CrcBit;
    if n > 0 {
      CrcByteInjective(CrcBit(c), CrcBit(d), n - 1);
      CrcBitInjective(c, d);
    }
  }

  lemma {:induction false} CrcUpdateInjective(c: Word32, d: Word32, bs: seq<Byte>)
    requires CrcUpdate(c, bs) == CrcUpdate(d, bs)
    ensures c == d
    decreases bs
  {
    hide CrcByte, XorNat;
    if bs != [] {
      Pow2Values(); XorBound(c, bs[0], 32); XorBound(d, bs[0], 32);
      CrcUpdateInjective(CrcByte(XorNat(c, bs[0]), 8), CrcByte(XorNat(d, bs[0]), 8), bs[1..]);
      CrcByteInjective(XorNat(c, bs[0]), XorNat(d, bs[0]), 8);
      XorCommutes(c, bs[0]); XorCommutes(d, bs[0]);
      XorNatInjective(bs[0], c, d);
    }
  }

  lemma {:induction false} CrcConcat(c: Word32, a: seq<Byte>, b: seq<Byte>)
    ensures CrcUpdate(c, a + b) == CrcUpdate(CrcUpdate(c, a), b)
    decreases a
  {
    hide CrcByte, XorNat;
    if a == [] {
      assert a + b == b;
    } else {
      Pow2Values(); XorBound(c, a[0], 32);
      CrcConcat(CrcByte(XorNat(c, a[0]), 8), a[1..], b);
      assert (a + b)[1..] == a[1..] + b;
    }
  }

  /** The checksum changes with any one byte. */
  lemma OneByteChanges(a: seq<Byte>, x: Byte, y: Byte, b: seq<Byte>)
    ensures Crc32(a + [x] + b) == Crc32(a + [y] + b) <==> x == y
  {
    hide CrcByte, XorNat;
    if Crc32(a + [x] + b) == Crc32(a + [y] + b) {
      var c: Word32 := CrcUpdate(0xFFFF_FFFF, a);
      CrcConcat(0xFFFF_FFFF, a + [x], b); CrcConcat(0xFFFF_FFFF, a + [y], b);
      CrcConcat(0xFFFF_FFFF, a, [x]); CrcConcat(0xFFFF_FFFF, a, [y]);
      CrcUpdateInjective(CrcUpdate(c, [x]), CrcUpdate(c, [y]), b);
      Pow2Values(); XorBound(c, x, 32); XorBound(c, y, 32);
      assert [x][1..] == [] && [y][1..] == [];
      CrcByteInjective(XorNat(c, x), XorNat(c, y), 8);
      XorNatInjective(c, x, y);
    }
  }

  // ---------------------------------------------------------------- writing

  function Payload(s: Streams): seq<Byte> {
    BigEndian(|s.timestamps|, 4) + s.timestamps + s.values
  }

  function Header(count: nat, start: Word, end: Word, payloadLen: nat): (h: seq<Byte>)
    ensures |h| == HEADER_SIZE
  {
    MAGIC + [FORMAT_VERSION] + BigEndian(count, 4) + BigEndian(start, 8) + BigEndian(end, 8) + BigEndian(payloadLen, 4)
  }

  /** The bytes a rotation writes for a nonempty buffer. */
  function ChunkBytes(buf: seq<Point>): (bytes: seq<Byte>)
    requires buf != []
    ensures |bytes| >= HEADER_SIZE + 4
  {
    var payload := Payload(Encoded(buf));
    var body := Header(|buf|, buf[0].ts, buf[|buf| - 1].ts, |payload|) + payload;
    body + BigEndian(Crc32(body), 4)
  }

  /** All counts and lengths of the file fit their 32-bit fields. */
  predicate LengthsFit(buf: seq<Point>) {
    |buf| < TWO_TO_32 && |Payload(Encoded(buf))| < TWO_TO_32
  }

  method Put(a: array<Byte>, offset: nat, bytes: seq<Byte>)
    requires offset + |bytes| <= a.Length
    modifies a
    ensures a[..] == old(a[..offset]) + bytes + old(a[offset + |bytes|..])
  {
    forall i | 0 <= i < |bytes| {
      a[offset + i] := bytes[i];
    }
  }

  /** Fills the header by offset. */
  method BuildHeader(buf: seq<Point>, payloadLen: nat) returns (hdr: array<Byte>)
    requires buf != []
    ensures fresh(hdr) && hdr[..] == Header(|buf|, buf[0].ts, buf[|buf| - 1].ts, payloadLen)
  {
    hide BigEndian;
    hdr := new Byte[HEADER_SIZE];
    Put(hdr, 0, MAGIC);
    hdr[4] := FORMAT_VERSION;
    Put(hdr, 5, BigEndian(|buf|, 4));
    Put(hdr, 9, BigEndian(buf[0].ts, 8));
    Put(hdr, 17, BigEndian(buf[|buf| - 1].ts, 8));
    Put(hdr, 25, BigEndian(payloadLen, 4));
  }

  /** Lays the file out in byte buffers filled by offset. */
  method BuildChunk(buf: seq<Point>, streams: Streams) returns (fileBytes: seq<Byte>)
    requires buf != [] && streams == Encoded(buf)
    ensures fileBytes == ChunkBytes(buf)
  {
    hide BigEndian, Encoded, Crc32, Header;
    var tsLen := |streams.timestamps|;
    var payload := new Byte[4 + tsLen + |streams.values|];
    Put(payload, 0, BigEndian(tsLen, 4));
    Put(payload, 4, streams.timestamps);
    Put(payload, 4 + tsLen, streams.values);
    assert payload[..] == Payload(streams);
    var hdr := BuildHeader(buf, payload.Length);
    var full := hdr[..] + payload[..];
    fileBytes := full + BigEndian(Crc32(full), 4);
  }

  // ---------------------------------------------------------------- reading

  /** What ReadChunk returns for a file's contents. Panic is an index out of
      range in a file shorter than its header says. */
  datatype ChunkRead =
    | ChunkPoints(points: seq<Point>)
    | TooShort | BadMagic | ChecksumMismatch | PayloadTooShort | CorruptLength | CorruptStreams | Panic

  function ReadChunk(data: seq<Byte>): ChunkRead {
    if |data| < HEADER_SIZE + 4 then TooShort
    else if data[0..4] != MAGIC then BadMagic
    else
      var count := Word32At(data[5..9]);
      if count == 0 then ChunkPoints([])
      else
        var payloadLen := Word32At(data[25..29]);
        if |data| < HEADER_SIZE + payloadLen + 4 then Panic
        else
          var end := HEADER_SIZE + payloadLen;
          if Word32At(data[end..end + 4]) != Crc32(data[..end]) then ChecksumMismatch
          else ReadPayload(data[HEADER_SIZE..end], count)
  }

  function ReadPayload(payload: seq<Byte>, count: Word32): ChunkRead {
    if |payload| < 4 then PayloadTooShort
    else
      var tsLen := Word32At(payload[..4]);
      if |payload| < 4 + tsLen then CorruptLength
      else
        match Decode(Streams(payload[4..4 + tsLen], payload[4 + tsLen..]), count)
        case Points(pts) => ChunkPoints(pts)
        case Truncated => CorruptStreams
  }

  /** The header fields an index rebuild reads: first time, last time, count. */
  datatype HeaderRead = NoHeader | HeaderRead(start: Word, end: Word, count: Word32)

  function ReadHeader(data: seq<Byte>): HeaderRead {
    if |data| < HEADER_SIZE || data[0..4] != MAGIC then NoHeader
    else HeaderRead(WordAt(data[9..17]), WordAt(data[17..25]), Word32At(data[5..9]))
  }

  // ---------------------------------------------------------------- round trip

  lemma HeaderFields(count: Word32, start: Word, end: Word, payloadLen: Word32, rest: seq<Byte>)
    ensures var d := Header(count, start, end, payloadLen) + rest;
            && d[0..4] == MAGIC && d[HEADER_SIZE..] == rest
            && Word32At(d[5..9]) == count && WordAt(d[9..17]) == start
            && WordAt(d[17..25]) == end && Word32At(d[25..29]) == payloadLen
  {
    hide BigEndian, Word32At, WordAt;
    var d := Header(count, start, end, payloadLen) + rest;
    assert d[5..9] == BigEndian(count, 4) && d[9..17] == BigEndian(start, 8);
    assert d[17..25] == BigEndian(end, 8) && d[25..29] == BigEndian(payloadLen, 4);
    Word32RoundTrip(count); WordRoundTrip(start); WordRoundTrip(end); Word32RoundTrip(payloadLen);
  }

  lemma PayloadRead(buf: seq<Point>)
    requires buf != [] && LengthsFit(buf)
    ensures var r := ReadPayload(Payload(Encoded(buf)), |buf|);
            && r.ChunkPoints? && |r.points| == |buf| && (r.points == buf <==> InDomain(buf))
            && (Times(r.points) == Times(buf) <==> TimesInRange(Times(buf)))
            && (Values(r.points) == Values(buf) <==> ValuesInRange(Values(buf)))
            && r.points[0] == buf[0]
  {
    hide BigEndian, Encoded, Decode, Word32At, InDomain, TimesInRange, ValuesInRange;
    var s := Encoded(buf);
    var p := Payload(s);
    Word32RoundTrip(|s.timestamps|);
    assert p[..4] == BigEndian(|s.timestamps|, 4);
    assert p[4..4 + |s.timestamps|] == s.timestamps && p[4 + |s.timestamps|..] == s.values;
    RoundTrip(buf);
  }

  /** Reading the bytes of a chunk returns as many points as were written, and
      the same points exactly when they lie in the codec's domain. */
  lemma ChunkRoundTrip(buf: seq<Point>)
    requires buf != [] && LengthsFit(buf)
    ensures var r := ReadChunk(ChunkBytes(buf));
            && r.ChunkPoints? && |r.points| == |buf| && (r.points == buf <==> InDomain(buf))
            && (Times(r.points) == Times(buf) <==> TimesInRange(Times(buf)))
            && (Values(r.points) == Values(buf) <==> ValuesInRange(Values(buf)))
            && r.points[0] == buf[0]
  {
    hide BigEndian, Encoded, ReadPayload, Word32At, WordAt, InDomain, Header, Crc32, Payload, TimesInRange,
         ValuesInRange;
    var payload := Payload(Encoded(buf));
    var header := Header(|buf|, buf[0].ts, buf[|buf| - 1].ts, |payload|);
    var sum := BigEndian(Crc32(header + payload), 4);
    var data := ChunkBytes(buf);
    assert data == header + (payload + sum);
    HeaderFields(|buf|, buf[0].ts, buf[|buf| - 1].ts, |payload|, payload + sum);
    assert data[..HEADER_SIZE + |payload|] == header + payload;
    assert data[HEADER_SIZE..HEADER_SIZE + |payload|] == payload;
    assert data[HEADER_SIZE + |payload|..HEADER_SIZE + |payload| + 4] == sum;
    Word32RoundTrip(Crc32(header + payload));
    PayloadRead(buf);
  }

  /** Scanning the header of a chunk gives its first time, last time and count. */
  lemma HeaderRoundTrip(buf: seq<Point>)
    requires buf != [] && LengthsFit(buf)
    ensures ReadHeader(ChunkBytes(buf)) == HeaderRead(buf[0].ts, buf[|buf| - 1].ts, |buf|)
  {
    hide Encoded, Header;
    var payload := Payload(Encoded(buf));
    var header := Header(|buf|, buf[0].ts, buf[|buf| - 1].ts, |payload|);
    var sum := BigEndian(Crc32(header + payload), 4);
    assert ChunkBytes(buf) == header + (payload + sum);
    HeaderFields(|buf|, buf[0].ts, buf[|buf| - 1].ts, |payload|, payload + sum);
  }

  /** The file byte by byte. */
  lemma ChunkLayout(buf: seq<Point>)
    requires buf != [] && LengthsFit(buf)
    ensures var d, st := ChunkBytes(buf), Encoded(buf);
            var n, t := |st.timestamps| + |st.values|, |st.timestamps|;
            && |d| == 29 + 4 + n + 4 && d[..5] == [0x43, 0x48, 0x52, 0x4E, 1]
            && Word32At(d[5..9]) == |buf| && WordAt(d[9..17]) == buf[0].ts && WordAt(d[17..25]) == buf[|buf| - 1].ts
            && Word32At(d[25..29]) == 4 + n && Word32At(d[29..33]) == t
            && d[33..33 + t] == st.timestamps && d[33 + t..33 + n] == st.values
            && Word32At(d[33 + n..]) == Crc32(d[..33 + n])
  {
    hide BigEndian, Encoded, Word32At, WordAt, Crc32, InDomain;
    var st := Encoded(buf);
    var payload := Payload(st);
    var header := Header(|buf|, buf[0].ts, buf[|buf| - 1].ts, |payload|);
    var sum := BigEndian(Crc32(header + payload), 4);
    var d, n, t := ChunkBytes(buf), |st.timestamps| + |st.values|, |st.timestamps|;
    assert d == header + (payload + sum);
    HeaderFields(|buf|, buf[0].ts, buf[|buf| - 1].ts, |payload|, payload + sum);
    Word32RoundTrip(t); Word32RoundTrip(Crc32(header + payload));
    assert d[..33 + n] == header + payload && d[33 + n..] == sum;
    assert d[29..33] == BigEndian(t, 4) && d[33..33 + t] == st.timestamps && d[33 + t..33 + n] == st.values;
  }

  /** A reader gets points only from a file with the magic, a payload of the length
      its header says and the checksum of everything before it. */
  lemma ReadOnlyChecked(data: seq<Byte>)
    requires ReadChunk(data).ChunkPoints? && ReadChunk(data).points != []
    ensures |data| >= 33 && data[..4] == [0x43, 0x48, 0x52, 0x4E] && Word32At(data[5..9]) > 0
    ensures var n := Word32At(data[25..29]);
            |data| >= 33 + n && Word32At(data[29 + n..33 + n]) == Crc32(data[..29 + n])
  {
    hide Crc32, ReadPayload, Word32At;
  }

  /** Why a read fails: a file of less than 33 bytes, another magic, a payload that is
      not all there, or another checksum. A count of zero is no points. */
  lemma ReadOutcome(data: seq<Byte>)
    ensures ReadChunk(data).TooShort? <==> |data| < 33
    ensures |data| >= 33 ==> (ReadChunk(data).BadMagic? <==> data[..4] != [0x43, 0x48, 0x52, 0x4E])
    ensures |data| >= 33 && data[..4] == [0x43, 0x48, 0x52, 0x4E] ==>
              var r, n := ReadChunk(data), Word32At(data[25..29]);
              if Word32At(data[5..9]) == 0 then r == ChunkPoints([])
              else && (r.Panic? <==> |data| < 33 + n)
                   && (r.ChecksumMismatch? <==>
                         |data| >= 33 + n && Word32At(data[29 + n..33 + n]) != Crc32(data[..29 + n]))
  {
    hide Crc32, Word32At, Decode;
  }

  /** Changing any one byte of a chunk outside its magic, count and length makes
      reading it a checksum mismatch. */
  lemma OneByteDetected(data: seq<Byte>, i: nat, b: Byte)
    requires ReadChunk(data).ChunkPoints? && ReadChunk(data).points != []
    requires i == 4 || 9 <= i < 25 || 29 <= i < 29 + Word32At(data[25..29])
    requires b != data[i]
    ensures ReadChunk(data[i := b]) == ChecksumMismatch
  {
    hide Crc32, ReadPayload, Word32At;
    ReadOnlyChecked(data);
    var n, d := Word32At(data[25..29]), data[i := b];
    assert d[0..4] == data[0..4] && d[5..9] == data[5..9] && d[25..29] == data[25..29];
    assert d[29 + n..33 + n] == data[29 + n..33 + n];
    var head, tail := data[..i], data[i + 1..29 + n];
    assert data[..29 + n] == head + [data[i]] + tail && d[..29 + n] == head + [b] + tail;
    OneByteChanges(head, data[i], b, tail);
  }

  /** The lengths fit for every buffer a store can hold in practice. */
  lemma LengthsFitBound(buf: seq<Point>)
    requires |buf| <= 300_000_000
    ensures LengthsFit(buf)
  {
    hide BytesToBits;
    if |buf| == 1 {
      CursorAgreement(buf);
      assert |TimestampBits(Times(buf))| == 64 && |ValueBits(Values(buf))| == 64;
    } else if |buf| > 1 {
      CursorAgreement(buf);
      SizeBounds(buf);
    }
  }
}
