/** The 36-byte rollup record: window start, average, minimum and maximum as IEEE
    754 bit patterns, and the count, all big-endian. */
module RollupFile {
  import opened Words
  import opened Wrappers

  const ROLLUP_RECORD_SIZE: nat := 36

  datatype DiskRecord = DiskRecord(windowStart: Word, avg: Word, min: Word, max: Word, count: Word32)

  function MarshalRecord(r: DiskRecord): (buf: seq<Byte>)
    ensures |buf| == ROLLUP_RECORD_SIZE
  {
    BigEndian(r.windowStart, 8) + BigEndian(r.avg, 8) + BigEndian(r.min, 8) + BigEndian(r.max, 8)
        + BigEndian(r.count, 4)
  }

  function UnmarshalRecord(buf: seq<Byte>): DiskRecord
    requires |buf| == ROLLUP_RECORD_SIZE
  {
    DiskRecord(WordAt(buf[0..8]), WordAt(buf[8..16]), WordAt(buf[16..24]), WordAt(buf[24..32]), Word32At(buf[32..36]))
  }

  /** The file after these records were appended. */
  function FileOf(rs: seq<DiskRecord>): seq<Byte> {
    if rs == [] then [] else FileOf(rs[..|rs| - 1]) + MarshalRecord(rs[|rs| - 1])
  }

  /** The records of a file of whole records. */
  function RecordsOf(data: seq<Byte>): seq<DiskRecord>
    requires |data| % ROLLUP_RECORD_SIZE == 0
  {
    if data == [] then []
    else
      var n := |data| - ROLLUP_RECORD_SIZE;
      RecordsOf(data[..n]) + [UnmarshalRecord(data[n..])]
  }

  /** Reads a rollup file; a size that is not whole records is an error. */
  method ReadRecords(data: seq<Byte>) returns (recs: Option<seq<DiskRecord>>)
    ensures recs == if |data| % ROLLUP_RECORD_SIZE != 0 then None else Some(RecordsOf(data))
  {
    hide UnmarshalRecord, WordAt, Word32At, BigEndian, FromBigEndian;
    if |data| % ROLLUP_RECORD_SIZE != 0 {
      return None;
    }
    var read: seq<DiskRecord> := [];
    var i := 0;
    while i + ROLLUP_RECORD_SIZE <= |data|
      invariant i == ROLLUP_RECORD_SIZE * |read| <= |data|
      invariant read == RecordsOf(data[..i])
    {
      var next := data[..i + ROLLUP_RECORD_SIZE];
      assert next[..i] == data[..i] && next[i..] == data[i..i + ROLLUP_RECORD_SIZE];
      read := read + [UnmarshalRecord(data[i..i + ROLLUP_RECORD_SIZE])];
      i := i + ROLLUP_RECORD_SIZE;
    }
    assert data[..i] == data;
    recs := Some(read);
  }

  /** A record has its fields in this order and reads back. */
  lemma RecordRoundTrip(r: DiskRecord)
    ensures var b := MarshalRecord(r);
            && |b| == 36 && WordAt(b[0..8]) == r.windowStart && WordAt(b[8..16]) == r.avg
            && WordAt(b[16..24]) == r.min && WordAt(b[24..32]) == r.max && Word32At(b[32..36]) == r.count
    ensures UnmarshalRecord(MarshalRecord(r)) == r
  {
    hide BigEndian, WordAt, Word32At;
    var buf := MarshalRecord(r);
    var two := BigEndian(r.windowStart, 8) + BigEndian(r.avg, 8);
    var four := two + BigEndian(r.min, 8) + BigEndian(r.max, 8);
    assert |two| == 16 && |four| == 32 && buf == four + BigEndian(r.count, 4);
    assert buf[0..8] == BigEndian(r.windowStart, 8) && buf[8..16] == BigEndian(r.avg, 8);
    assert buf[16..24] == BigEndian(r.min, 8) && buf[24..32] == BigEndian(r.max, 8);
    assert buf[32..36] == BigEndian(r.count, 4);
    WordRoundTrip(r.windowStart); WordRoundTrip(r.avg); WordRoundTrip(r.min); WordRoundTrip(r.max);
    Word32RoundTrip(r.count);
  }

  /** A file to which only whole records were appended reads back as exactly those
      records, in order. */
  lemma {:induction false} FileRoundTrip(rs: seq<DiskRecord>)
    ensures |FileOf(rs)| == ROLLUP_RECORD_SIZE * |rs| && RecordsOf(FileOf(rs)) == rs
  {
    hide MarshalRecord, UnmarshalRecord;
    if rs != [] {
      var init, r := rs[..|rs| - 1], rs[|rs| - 1];
      FileRoundTrip(init);
      RecordRoundTrip(r);
      var data := FileOf(rs);
      assert data[..|data| - ROLLUP_RECORD_SIZE] == FileOf(init)
          && data[|data| - ROLLUP_RECORD_SIZE..] == MarshalRecord(r);
    }
  }
}
