/** The reader delivers exactly the payloads of a frame stream as lines, answers
    each ping once, and accepts what the writer sends. */
module WebSocketTheorems {
  import opened Words
  import opened Wrappers
  import opened WebSocket

  // ---------------------------------------------------------------- frames as bytes

  const PONG: Byte := 0xA

  datatype Frame = Frame(opcode: Byte, payload: seq<Byte>, key: Option<Key>)

  function LengthBytes(n: nat, masked: bool): seq<Byte>
    requires n < TWO_TO_64
  {
    var bit: nat := if masked then 128 else 0;
    if n <= 125 then [bit + n]
    else if n <= 65535 then [bit + 126] + BigEndian(n, 2)
    else [bit + 127] + BigEndian(n, 8)
  }

  function KeyBytes(key: Option<Key>): seq<Byte> {
    match key
    case None => []
    case Some(k) => k
  }

  /** A final frame as section 5.2 of RFC 6455 lays it out. */
  function FrameBytes(f: Frame): seq<Byte>
    requires f.opcode < 16 && |f.payload| < TWO_TO_64
  {
    [0x80 + f.opcode] + LengthBytes(|f.payload|, f.key.Some?) + KeyBytes(f.key) + Mask(f.payload, f.key)
  }

  /** An extended length reads back as the number it spells. */
  lemma ExtendedLength(opcode: Byte, masked: bool, width: nat, n: nat, s: seq<Byte>)
    requires width == 2 || width == 8
    requires n < Pow2(8 * width)
    ensures ParseLength(opcode, masked, if width == 2 then 126 else 127, BigEndian(n, width) + s)
         == ParseBody(opcode, masked, n, s)
  {
    hide BigEndian, ParseBody, FromBigEndian;
    BigEndianRoundTrip(n, width);
    assert (BigEndian(n, width) + s)[..width] == BigEndian(n, width) && (BigEndian(n, width) + s)[width..] == s;
  }

  lemma ShortLength(opcode: Byte, masked: bool, n: nat, s: seq<Byte>)
    requires n <= 125
    ensures ParseLength(opcode, masked, n, s) == ParseBody(opcode, masked, n, s)
  {
    hide ParseBody, FromBigEndian;
    assert s[0..] == s;
  }

  lemma ParsedLength(opcode: Byte, n: nat, masked: bool, s: seq<Byte>)
    requires n < TWO_TO_64
    ensures var bs := LengthBytes(n, masked);
            && (bs[0] >= 128 <==> masked)
            && ParseLength(opcode, masked, bs[0] % 128, bs[1..] + s) == ParseBody(opcode, masked, n, s)
  {
    hide BigEndian, ParseBody, ParseLength, Pow2;
    var bs := LengthBytes(n, masked);
    FieldWidths();
    if n <= 125 {
      assert bs[1..] + s == s && bs[0] % 128 == n;
      ShortLength(opcode, masked, n, s);
    } else if n <= 65535 {
      assert bs[1..] == BigEndian(n, 2) && bs[0] % 128 == 126;
      ExtendedLength(opcode, masked, 2, n, s);
    } else {
      assert bs[1..] == BigEndian(n, 8) && bs[0] % 128 == 127;
      ExtendedLength(opcode, masked, 8, n, s);
    }
  }

  /** How a frame followed by other bytes is to be read: a payload over the limit
      is refused before its key and payload are consumed. */
  function ReadAs(f: Frame, tail: seq<Byte>): Parsed {
    if |f.payload| <= MAX_PAYLOAD then Got(f.opcode, f.payload, tail)
    else Stop(TooLarge, [], KeyBytes(f.key) + Mask(f.payload, f.key) + tail)
  }

  lemma ParsedBody(f: Frame, tail: seq<Byte>)
    requires |f.payload| < TWO_TO_64
    ensures ParseBody(f.opcode, f.key.Some?, |f.payload|, KeyBytes(f.key) + Mask(f.payload, f.key) + tail)
            == ReadAs(f, tail)
  {
    hide Mask;
    var raw := Mask(f.payload, f.key);
    var s := KeyBytes(f.key) + raw + tail;
    MaskTwice(f.payload, f.key);
    match f.key
    case None =>
      assert s[..|raw|] == raw && s[|raw|..] == tail;
    case Some(k) =>
      assert s[..4] == k && s[4..] == raw + tail;
      assert s[4..][..|raw|] == raw && s[4..][|raw|..] == tail;
  }

  /** The length field: seven bits up to 125, else 126 and two bytes up to 65535, else
      127 and eight bytes, the most significant first; the top bit tells of a key. */
  lemma LengthLayout(n: nat, masked: bool)
    requires n < 0x1_0000_0000_0000_0000
    ensures var bs := LengthBytes(n, masked);
            && bs != [] && (bs[0] >= 128 <==> masked)
            && if n <= 125 then |bs| == 1 && bs[0] % 128 == n
               else if n <= 65535 then |bs| == 3 && bs[0] % 128 == 126 && bs[1] as int * 256 + bs[2] == n
               else |bs| == 9 && bs[0] % 128 == 127
                    && forall i | 1 <= i < 9 :: bs[i] == n / Pow2(8 * (8 - i)) % 256
  {
    hide BigEndian, Pow2;
    if n > 65535 {
      forall i | 0 <= i < 8 ensures BigEndian(n, 8)[i] == n / Pow2(8 * (7 - i)) % 256 {
        BigEndianByte(n, 8, i);
      }
    } else if n > 125 {
      TwoBytes(n);
    }
  }

  lemma TwoBytes(n: nat)
    requires n <= 65535
    ensures BigEndian(n, 2)[0] as int * 256 + BigEndian(n, 2)[1] == n
  {
    assert BigEndian(n, 2) == [n / 256 % 256, n % 256];
  }

  /** Whatever bytes are a frame on the wire parse back: a first byte with FIN set and
      the opcode below, the length field, the key if any, and the payload masked bit
      by bit. The frame and its payload come back up to 2^20 bytes; a longer payload
      is refused before its key is read. */
  lemma FrameRoundTrip(f: Frame, raw: seq<Byte>, tail: seq<Byte>)
    requires f.opcode < 16 && f.opcode != 8 && |f.payload| < 0x1_0000_0000_0000_0000
    requires MaskedBy(raw, f.payload, f.key)
    ensures var wire := [128 + f.opcode] + LengthBytes(|f.payload|, f.key.Some?) + KeyBytes(f.key) + raw;
            && wire == FrameBytes(f)
            && ParseFrame(wire + tail) == if |f.payload| <= 1_048_576 then Got(f.opcode, f.payload, tail)
                                          else Stop(TooLarge, [], KeyBytes(f.key) + raw + tail)
  {
    hide Mask, MaskedBy, ParseFrame, LengthBytes;
    MaskedExactly(raw, f.payload, f.key);
    FrameParses(f, tail);
  }

  /** Parsing a frame gives back its opcode and payload and leaves what follows,
      exactly when the payload is within the limit. */
  lemma FrameParses(f: Frame, tail: seq<Byte>)
    requires f.opcode < 16 && f.opcode != CLOSE && |f.payload| < TWO_TO_64
    ensures ParseFrame(FrameBytes(f) + tail) == ReadAs(f, tail)
  {
    hide Mask, ParseLength, ParseBody, LengthBytes, ReadAs;
    var rest := KeyBytes(f.key) + Mask(f.payload, f.key) + tail;
    var s, len := FrameBytes(f) + tail, LengthBytes(|f.payload|, f.key.Some?);
    assert |len| >= 1 by { LengthNonempty(|f.payload|, f.key.Some?); }
    assert s == [0x80 + f.opcode] + len + rest;
    assert s[0] == 0x80 + f.opcode && s[1] == len[0] && s[2..] == len[1..] + rest;
    ParsedLength(f.opcode, |f.payload|, f.key.Some?, rest);
    ParsedBody(f, tail);
  }

  lemma LengthNonempty(n: nat, masked: bool)
    requires n < TWO_TO_64
    ensures LengthBytes(n, masked) != []
  {
  }

  /** What Write sends is the final, unmasked text frame of its argument in the
      shortest length form, and parses back to it up to 2^20 bytes; a longer one the
      reader refuses. */
  lemma WriteRoundTrip(b: seq<Byte>, tail: seq<Byte>)
    requires |b| < 0x1_0000_0000_0000_0000
    ensures var wire := FrameHeader(|b|) + b;
            && wire == FrameBytes(Frame(1, b, None)) && wire == [0x81] + LengthBytes(|b|, false) + b
            && ParseFrame(wire + tail) == if |b| <= 1_048_576 then Got(1, b, tail) else Stop(TooLarge, [], b + tail)
  {
    hide BigEndian, ParseFrame;
    var f := Frame(TEXT, b, None);
    assert FrameHeader(|b|) + b == [0x81] + LengthBytes(|b|, false) + b;
    assert [0x81] + LengthBytes(|b|, false) + [] == [0x81] + LengthBytes(|b|, false);
    FrameRoundTrip(f, b, tail);
    assert KeyBytes(None) + b + tail == b + tail;
  }

  /** The reply to a ping of at most 125 bytes is the final, unmasked pong frame with
      its payload. */
  lemma PongRoundTrip(payload: seq<Byte>, tail: seq<Byte>)
    requires |payload| <= 125
    ensures Pong(payload) == FrameBytes(Frame(10, payload, None)) && Pong(payload) == [0x8A, |payload|] + payload
    ensures ParseFrame(Pong(payload) + tail) == Got(10, payload, tail)
  {
    hide ParseFrame;
    var f := Frame(PONG, payload, None);
    assert FrameBytes(f) == Pong(payload);
    FrameParses(f, tail);
  }

  /** What one frame does: a ping is answered by a pong with its payload, an empty
      frame of another opcode is skipped, and any other is data, ended by a newline. */
  lemma FrameEffect(f: Frame, tail: seq<Byte>)
    requires f.opcode < 16 && f.opcode != 8 && |f.payload| <= 1_048_576
    ensures var o, next := NextData(FrameBytes(f) + tail), NextData(tail);
            if f.opcode == 9 then o == next.(replies := [0x8A, |f.payload| % 256] + f.payload + next.replies)
            else if f.payload == [] then o == next
            else
              var ended := f.payload[|f.payload| - 1] == 10;
              o == Outcome(NoError, if ended then f.payload else f.payload + [10], [], tail)
  {
    hide ParseFrame, FrameBytes, NextData;
    var s := FrameBytes(f) + tail;
    FrameParses(f, tail);
    NextDataStep(s, []);
    assert [] + NextData(s).replies == NextData(s).replies && [] + NextData(tail).replies == NextData(tail).replies;
    assert [] + Pong(f.payload) == Pong(f.payload);
  }

  // ---------------------------------------------------------------- streams of frames

  /** All data still to be delivered from these bytes. */
  function Delivered(s: seq<Byte>): seq<Byte>
    decreases |s|
  {
    var o := NextData(s);
    NextDataFacts(s);
    if o.err != NoError then [] else o.data + Delivered(o.rest)
  }

  /** All replies still to be sent for these bytes. */
  function Replies(s: seq<Byte>): seq<Byte>
    decreases |s|
  {
    var o := NextData(s);
    NextDataFacts(s);
    if o.err != NoError then o.replies else o.replies + Replies(o.rest)
  }

  /** Text and binary frames up to the limit, and pings of at most 125 bytes. */
  predicate Proper(f: Frame) {
    || ((f.opcode == TEXT || f.opcode == BINARY) && |f.payload| <= MAX_PAYLOAD)
    || (f.opcode == PING && |f.payload| <= 125)
  }

  ghost predicate AllProper(fs: seq<Frame>) {
    forall i | 0 <= i < |fs| :: Proper(fs[i])
  }

  function Stream(fs: seq<Frame>): seq<Byte>
    requires AllProper(fs)
  {
    if fs == [] then [] else FrameBytes(fs[0]) + Stream(fs[1..])
  }

  /** The payloads of the data frames in order, each nonempty one ending in a
      newline. */
  function Lines(fs: seq<Frame>): seq<Byte> {
    if fs == [] then []
    else (if fs[0].opcode == PING then [] else WithNewline(fs[0].payload)) + Lines(fs[1..])
  }

  /** One pong for each ping, in order, with its payload. */
  function Pongs(fs: seq<Frame>): seq<Byte> {
    if fs == [] then []
    else (if fs[0].opcode == PING then Pong(fs[0].payload) else []) + Pongs(fs[1..])
  }

  lemma OneFrame(f: Frame, tail: seq<Byte>)
    requires Proper(f)
    ensures Delivered(FrameBytes(f) + tail)
            == (if f.opcode == PING then [] else WithNewline(f.payload)) + Delivered(tail)
    ensures Replies(FrameBytes(f) + tail) == (if f.opcode == PING then Pong(f.payload) else []) + Replies(tail)
  {
    hide ParseFrame, FrameBytes, NextData, Pong;
    var s := FrameBytes(f) + tail;
    FrameParses(f, tail);
    NextDataStep(s, []);
    assert [] + NextData(s).replies == NextData(s).replies && [] + NextData(tail).replies == NextData(tail).replies;
    assert [] + Pong(f.payload) == Pong(f.payload);
    if f.opcode == PING {
      assert Pong(f.payload) + NextData(tail).replies + Replies(NextData(tail).rest)
          == Pong(f.payload) + (NextData(tail).replies + Replies(NextData(tail).rest));
    }
  }

  lemma {:induction false} StreamLaw(fs: seq<Frame>, tail: seq<Byte>)
    requires AllProper(fs)
    ensures Delivered(Stream(fs) + tail) == Lines(fs) + Delivered(tail)
    ensures Replies(Stream(fs) + tail) == Pongs(fs) + Replies(tail)
  {
    hide Delivered, Replies, FrameBytes, WithNewline, Pong;
    if fs == [] {
      assert Stream(fs) + tail == tail;
    } else {
      assert Proper(fs[0]);
      assert Stream(fs) + tail == FrameBytes(fs[0]) + (Stream(fs[1..]) + tail);
      OneFrame(fs[0], Stream(fs[1..]) + tail);
      StreamLaw(fs[1..], tail);
    }
  }

  // ---------------------------------------------------------------- sequences of reads

  function Pending(c: Conn): seq<Byte> {
    c.readBuf + Delivered(c.input)
  }

  /** The bytes a sequence of reads returns, up to the first error. */
  function Drain(c: Conn, sizes: seq<nat>): seq<Byte>
    decreases |sizes|
  {
    if sizes == [] || Fetched(c).err != NoError then []
    else Taken(c, sizes[0]) + Drain(ReadStep(c, sizes[0]), sizes[1..])
  }

  /** The connection after these reads, up to and including the first error. */
  function After(c: Conn, sizes: seq<nat>): Conn
    decreases |sizes|
  {
    if sizes == [] then c
    else if Fetched(c).err != NoError then ReadStep(c, sizes[0])
    else After(ReadStep(c, sizes[0]), sizes[1..])
  }

  predicate Stopped(c: Conn, sizes: seq<nat>)
    decreases |sizes|
  {
    sizes != [] && (Fetched(c).err != NoError || Stopped(ReadStep(c, sizes[0]), sizes[1..]))
  }

  /** One read moves bytes from what is pending to the caller, and replies from
      what is owed to what is sent. */
  lemma ReadLaw(c: Conn, size: nat)
    requires Fetched(c).err == NoError
    ensures Taken(c, size) + Pending(ReadStep(c, size)) == Pending(c)
    ensures ReadStep(c, size).output + Replies(ReadStep(c, size).input) == c.output + Replies(c.input)
    ensures size > 0 ==> Taken(c, size) != []
  {
    hide NextData;
    NextDataFacts(c.input);
    var o, c' := Fetched(c), ReadStep(c, size);
    assert o.data == Taken(c, size) + c'.readBuf;
    if c.readBuf == [] {
      assert Delivered(c.input) == o.data + Delivered(o.rest);
      assert Replies(c.input) == o.replies + Replies(o.rest);
    }
  }

  lemma ErrorLaw(c: Conn, size: nat)
    requires Fetched(c).err != NoError
    ensures Pending(c) == [] && ReadStep(c, size).output == c.output + Replies(c.input)
  {
  }

  /** Whatever the buffer sizes: the bytes returned are a prefix of what the input
      holds, all of it once there were enough reads; and the replies sent are
      those owed for the input consumed, all of them at the end. */
  lemma {:induction false} ReadsDeliver(c: Conn, sizes: seq<nat>)
    requires forall i | 0 <= i < |sizes| :: sizes[i] > 0
    ensures Drain(c, sizes) <= Pending(c)
    ensures |sizes| >= |Pending(c)| ==> Drain(c, sizes) == Pending(c)
    ensures |sizes| > |Pending(c)| ==> Stopped(c, sizes)
    ensures After(c, sizes).output + (if Stopped(c, sizes) then [] else Replies(After(c, sizes).input))
         == c.output + Replies(c.input)
    decreases |sizes|
  {
    hide Fetched, Taken, Pending, Replies, ReadStep;
    if sizes != [] {
      var size := sizes[0];
      if Fetched(c).err == NoError {
        ReadLaw(c, size);
        ReadsDeliver(ReadStep(c, size), sizes[1..]);
      } else {
        ErrorLaw(c, size);
      }
    }
  }

  /** For any stream of proper frames, masked or not, followed by anything, and any
      nonempty read buffers: the reads return, in order, the unmasked payloads as
      lines, then what follows delivers; every ping consumed has had its one pong.
      With enough reads all of it is returned and answered. */
  lemma StreamDelivered(fs: seq<Frame>, tail: seq<Byte>, sizes: seq<nat>)
    requires AllProper(fs) && forall i | 0 <= i < |sizes| :: sizes[i] > 0
    ensures var c := Conn([], Stream(fs) + tail, [], false);
            var data, replies := Lines(fs) + Delivered(tail), Pongs(fs) + Replies(tail);
            && Drain(c, sizes) <= data && After(c, sizes).output <= replies
            && (|sizes| > |data| ==> Drain(c, sizes) == data && Stopped(c, sizes))
            && (Stopped(c, sizes) ==> After(c, sizes).output == replies)
  {
    var c := Conn([], Stream(fs) + tail, [], false);
    StreamLaw(fs, tail);
    ReadsDeliver(c, sizes);
    assert Pending(c) == Delivered(c.input);
    assert c.output + Replies(c.input) == Replies(c.input);
  }

  /** After the frames the peer may close or just hang up: nothing more is
      delivered, and a close frame is echoed. A stream that ends inside a frame's
      first two bytes ends unexpectedly. */
  lemma Endings()
    ensures ParseFrame([]).Stop? && ParseFrame([]).err == EndOfFile
    ensures forall b: Byte :: ParseFrame([b]).Stop? && ParseFrame([b]).err == UnexpectedEnd
    ensures Delivered([]) == [] && Replies([]) == []
    ensures forall len: Byte, more: seq<Byte> ::
              Delivered([0x88, len] + more) == [] && Replies([0x88, len] + more) == [0x88, 0x00]
  {
    forall len: Byte, more: seq<Byte>
      ensures Delivered([0x88, len] + more) == [] && Replies([0x88, len] + more) == [0x88, 0x00]
    {
      var s := [0x88, len] + more;
      assert s[0] == 0x88;
      assert ParseFrame(s) == Stop(EndOfFile, [0x88, 0x00], s[2..]);
    }
  }
}
