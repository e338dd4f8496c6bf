/** The write-ahead log of one series: 16-byte records, replayed in order. */
module Wal {
  import opened Words

  const RECORD_SIZE: nat := 16

  function Record(p: Point): (r: seq<Byte>)
    ensures |r| == RECORD_SIZE
  {
    BigEndian(p.ts, 8) + BigEndian(p.bits, 8)
  }

  /** The log that holds exactly these points. */
  function LogOf(ps: seq<Point>): seq<Byte> {
    if ps == [] then [] else Record(ps[0]) + LogOf(ps[1..])
  }

  function ReadRecord(r: seq<Byte>): Point
    requires |r| == RECORD_SIZE
  {
    Point(WordAt(r[..8]), WordAt(r[8..]))
  }

  /** What recovery makes of a log: every whole record, and no torn tail. */
  function Recovered(log: seq<Byte>): (ps: seq<Point>) {
    if |log| < RECORD_SIZE then []
    else [ReadRecord(log[..RECORD_SIZE])] + Recovered(log[RECORD_SIZE..])
  }

  /** Replays the log record by record until a full record can no longer be read. */
  method RecoverWAL(log: seq<Byte>) returns (points: seq<Point>)
    ensures points == Recovered(log)
  {
    points := [];
    var pos := 0;
    while pos + RECORD_SIZE <= |log|
      invariant 0 <= pos <= |log|
      invariant Recovered(log) == points + Recovered(log[pos..])
    {
      assert log[pos..][..RECORD_SIZE] == log[pos..pos + RECORD_SIZE];
      assert log[pos..][RECORD_SIZE..] == log[pos + RECORD_SIZE..];
      points := points + [ReadRecord(log[pos..pos + RECORD_SIZE])];
      pos := pos + RECORD_SIZE;
    }
  }

  /** A record is the timestamp and then the value, eight bytes each, and reads back. */
  lemma RecordRoundTrip(p: Point)
    ensures |Record(p)| == 16 && WordAt(Record(p)[..8]) == p.ts && WordAt(Record(p)[8..]) == p.bits
    ensures ReadRecord(Record(p)) == p
  {
    assert Record(p)[..8] == BigEndian(p.ts, 8) && Record(p)[8..] == BigEndian(p.bits, 8);
    WordRoundTrip(p.ts); WordRoundTrip(p.bits);
  }

  /** Only the record of p reads back as p. */
  lemma RecordUnique(r: seq<Byte>)
    requires |r| == RECORD_SIZE
    ensures Record(ReadRecord(r)) == r
  {
    FromBigEndianInverse(r[..8]); FromBigEndianInverse(r[8..]);
    assert r == r[..8] + r[8..];
  }

  /** A log in whole records grows by exactly the appended point. */
  lemma {:induction false} AppendAligned(log: seq<Byte>, p: Point)
    requires |log| % RECORD_SIZE == 0
    ensures Recovered(log + Record(p)) == Recovered(log) + [p]
  {
    hide WordAt, BigEndian;
    if |log| == 0 {
      RecordRoundTrip(p);
      assert log + Record(p) == Record(p) && Record(p)[..RECORD_SIZE] == Record(p);
      assert Recovered(Record(p)[RECORD_SIZE..]) == [];
    } else {
      AppendAligned(log[RECORD_SIZE..], p);
      WholeRecordFirst(log, Record(p));
    }
  }

  /** Replaying a log that ends in a torn record gives exactly the points before it. */
  lemma {:induction false} TornTailDropped(ps: seq<Point>, torn: seq<Byte>)
    requires |torn| < RECORD_SIZE
    ensures Recovered(LogOf(ps) + torn) == ps
  {
    hide WordAt, BigEndian;
    if ps == [] {
      assert LogOf(ps) + torn == torn;
    } else {
      TornTailDropped(ps[1..], torn);
      RecordRoundTrip(ps[0]);
      var log := LogOf(ps) + torn;
      assert log[..RECORD_SIZE] == Record(ps[0]) && log[RECORD_SIZE..] == LogOf(ps[1..]) + torn;
    }
  }

  /** A torn record behind whole ones changes nothing in what replay returns. */
  lemma {:induction false} TornAppendDropped(log: seq<Byte>, torn: seq<Byte>)
    requires |log| % RECORD_SIZE == 0 && |torn| < RECORD_SIZE
    ensures Recovered(log + torn) == Recovered(log)
  {
    hide ReadRecord;
    if log == [] {
      assert log + torn == torn;
    } else {
      TornAppendDropped(log[RECORD_SIZE..], torn);
      WholeRecordFirst(log, torn);
    }
  }

  /** A point whose timestamp differs from the first torn byte in its first byte. */
  function Misread(first: Byte): Point {
    Point(WordAt([(first + 1) % 256, 0, 0, 0, 0, 0, 0, 0]), 0)
  }

  lemma MisreadRecord(first: Byte)
    ensures Record(Misread(first))[0] == (first + 1) % 256
  {
    FromBigEndianInverse([(first + 1) % 256, 0, 0, 0, 0, 0, 0, 0]);
  }

  /** After a torn record, this appended point is not what recovery returns. */
  lemma MisreadAfterTear(torn: seq<Byte>)
    requires 0 < |torn| < RECORD_SIZE
    ensures Recovered(torn + Record(Misread(torn[0]))) != [Misread(torn[0])]
  {
    hide WordAt, Misread, Record;
    var p := Misread(torn[0]);
    var r := (torn + Record(p))[..RECORD_SIZE];
    MisreadRecord(torn[0]);
    RecordUnique(r);
    assert r[0] == torn[0] != Record(p)[0];
    FirstRecovered(torn + Record(p));
  }

  lemma FirstRecovered(log: seq<Byte>)
    requires |log| >= RECORD_SIZE
    ensures Recovered(log) != [] && Recovered(log)[0] == ReadRecord(log[..RECORD_SIZE])
  {
  }

  lemma {:induction false} AppendMisaligned(log: seq<Byte>) returns (p: Point)
    requires |log| % RECORD_SIZE != 0
    ensures Recovered(log + Record(p)) != Recovered(log) + [p]
  {
    hide BigEndian, WordAt, Record, Misread;
    if |log| < RECORD_SIZE {
      p := Misread(log[0]);
      MisreadAfterTear(log);
      assert Recovered(log) + [p] == [p];
    } else {
      p := AppendMisaligned(log[RECORD_SIZE..]);
      WholeRecordFirst(log, Record(p));
      assert (Recovered(log) + [p])[1..] == Recovered(log[RECORD_SIZE..]) + [p];
    }
  }

  lemma WholeRecordFirst(log: seq<Byte>, more: seq<Byte>)
    requires |log| >= RECORD_SIZE
    ensures Recovered(log + more) == [ReadRecord(log[..RECORD_SIZE])] + Recovered(log[RECORD_SIZE..] + more)
  {
    assert (log + more)[..RECORD_SIZE] == log[..RECORD_SIZE];
    assert (log + more)[RECORD_SIZE..] == log[RECORD_SIZE..] + more;
  }

  /** Appends are safe exactly on logs that end on a record boundary. Recovery
      drops a torn tail but leaves it in the file. */
  lemma AppendSafeIffAligned(log: seq<Byte>)
    ensures (forall p :: Recovered(log + Record(p)) == Recovered(log) + [p]) <==> |log| % RECORD_SIZE == 0
  {
    if |log| % RECORD_SIZE == 0 {
      forall p ensures Recovered(log + Record(p)) == Recovered(log) + [p] {
        AppendAligned(log, p);
      }
    } else {
      var p := AppendMisaligned(log);
    }
  }
}
