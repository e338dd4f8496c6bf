/** WebSocket frames (RFC 6455, sections 5.2 and 5.3): the reader that turns
    frames into a line stream and answers pings, and the frame writer. */
module WebSocket {
  import opened Words
  import opened Wrappers

  const MAX_PAYLOAD: nat := 0x10_0000
  const NEWLINE: Byte := 10
  const TEXT: Byte := 0x1
  const BINARY: Byte := 0x2
  const CLOSE: Byte := 0x8
  const PING: Byte := 0x9

  datatype ReadError = NoError | EndOfFile | UnexpectedEnd | TooLarge

  // ---------------------------------------------------------------- masking

  function XorByte(a: Byte, b: Byte): Byte {
    Pow2Values(); XorBound(a, b, 8);
    XorNat(a, b)
  }

  /** A mask key has four bytes; byte i of the payload meets byte i mod 4. */
  type Key = k: seq<Byte> | |k| == 4 witness [0, 0, 0, 0]

  function Mask(payload: seq<Byte>, key: Option<Key>): (r: seq<Byte>)
    ensures |r| == |payload|
  {
    match key
    case None => payload
    case Some(k) => seq(|payload|, i requires 0 <= i < |payload| => XorByte(payload[i], k[i % 4]))
  }

  lemma NoMask(payload: seq<Byte>)
    ensures Mask(payload, None) == payload
  {
  }

  /** Masking twice with the same key is no masking. */
  lemma MaskTwice(payload: seq<Byte>, key: Option<Key>)
    ensures Mask(Mask(payload, key), key) == payload
  {
    if key.Some? {
      forall i | 0 <= i < |payload| ensures Mask(Mask(payload, key), key)[i] == payload[i] {
        var k := key.value[i % 4];
        XorNatCancel(payload[i], k);
        XorCommutes(k, XorNat(payload[i], k));
      }
    }
  }

  /** The bytes on the wire, bit by bit (RFC 6455, section 5.3): bit j of byte i is
      that of the payload, inverted where bit j of key byte i mod 4 is set. */
  ghost predicate MaskedBy(raw: seq<Byte>, payload: seq<Byte>, key: Option<Key>) {
    && |raw| == |payload|
    && match key
       case None => raw == payload
       case Some(k) =>
         forall i, j | 0 <= i < |raw| && 0 <= j < 8 ::
           BitOf(raw[i], j) <==> BitOf(payload[i], j) != BitOf(k[i % 4], j)
  }

  /** Mask gives these bytes and no others. */
  lemma MaskedExactly(raw: seq<Byte>, payload: seq<Byte>, key: Option<Key>)
    ensures MaskedBy(raw, payload, key) <==> raw == Mask(payload, key)
  {
    hide BitOf, XorByte;
    if key.Some? {
      var k, m := key.value, Mask(payload, key);
      forall i, j | 0 <= i < |payload| && 0 <= j < 8
        ensures BitOf(m[i], j) <==> BitOf(payload[i], j) != BitOf(k[i % 4], j)
      {
        XorByteBit(payload[i], k[i % 4], j);
      }
      if MaskedBy(raw, payload, key) {
        forall i | 0 <= i < |raw| ensures raw[i] == m[i] {
          SameByte(raw[i], m[i]);
        }
      }
    }
  }

  lemma XorByteBit(a: Byte, b: Byte, j: nat)
    ensures BitOf(XorByte(a, b), j) <==> BitOf(a, j) != BitOf(b, j)
  {
    XorBit(a, b, j);
  }

  lemma SameByte(a: Byte, b: Byte)
    requires forall j | 0 <= j < 8 :: BitOf(a, j) == BitOf(b, j)
    ensures a == b
  {
    Pow2Values();
    BitsDecide(a, b, 8);
  }

  // ---------------------------------------------------------------- one frame

  /** A frame and what follows it, or the reason reading stops, with the bytes
      sent in reply and the bytes not consumed. */
  datatype Parsed =
    | Got(opcode: Byte, payload: seq<Byte>, rest: seq<Byte>)
    | Stop(err: ReadError, reply: seq<Byte>, rest: seq<Byte>)

  /** Reading a whole buffer from a stream with only n bytes left fails. */
  function Short(n: nat): Parsed {
    Stop(if n == 0 then EndOfFile else UnexpectedEnd, [], [])
  }

  function ParseFrame(s: seq<Byte>): Parsed {
    if |s| < 2 then Short(|s|)
    else if s[0] % 16 == CLOSE then Stop(EndOfFile, [0x88, 0x00], s[2..])
    else ParseLength(s[0] % 16, s[1] >= 128, s[1] % 128, s[2..])
  }

  function ParseLength(opcode: Byte, masked: bool, len: nat, s: seq<Byte>): Parsed {
    var width := if len == 126 then 2 else if len == 127 then 8 else 0;
    if |s| < width then Short(|s|)
    else ParseBody(opcode, masked, if width == 0 then len else FromBigEndian(s[..width]), s[width..])
  }

  function ParseBody(opcode: Byte, masked: bool, len: nat, s: seq<Byte>): Parsed {
    if len > MAX_PAYLOAD then Stop(TooLarge, [], s)
    else if !masked then ParsePayload(opcode, None, len, s)
    else if |s| < 4 then Short(|s|)
    else ParsePayload(opcode, Some(s[..4]), len, s[4..])
  }

  function ParsePayload(opcode: Byte, key: Option<Key>, len: nat, s: seq<Byte>): Parsed {
    if |s| < len then Short(|s|) else Got(opcode, Mask(s[..len], key), s[len..])
  }

  lemma ParseShrinks(s: seq<Byte>)
    ensures |ParseFrame(s).rest| <= |s|
    ensures ParseFrame(s).Got? ==> |ParseFrame(s).rest| + 2 <= |s|
  {
    hide Mask, FromBigEndian;
  }

  // ---------------------------------------------------------------- the next data

  function Pong(payload: seq<Byte>): seq<Byte> {
    [0x8A, |payload| % 256] + payload
  }

  function WithNewline(payload: seq<Byte>): seq<Byte> {
    if payload != [] && payload[|payload| - 1] != NEWLINE then payload + [NEWLINE] else payload
  }

  /** The bytes of the next nonempty data frame, or an error; the replies sent on
      the way; and the bytes not consumed. */
  datatype Outcome = Outcome(err: ReadError, data: seq<Byte>, replies: seq<Byte>, rest: seq<Byte>)

  /** Pings are answered, empty frames skipped, and every other opcode is data. */
  function NextData(s: seq<Byte>): Outcome
    decreases |s|
  {
    ParseShrinks(s);
    match ParseFrame(s)
    case Stop(err, reply, rest) => Outcome(err, [], reply, rest)
    case Got(opcode, payload, rest) =>
      if opcode == PING then
        var o := NextData(rest);
        o.(replies := Pong(payload) + o.replies)
      else if payload == [] then NextData(rest)
      else Outcome(NoError, WithNewline(payload), [], rest)
  }

  /** How one frame contributes to the next data, after some replies were sent. */
  lemma NextDataStep(s: seq<Byte>, sent: seq<Byte>)
    ensures var o := NextData(s).(replies := sent + NextData(s).replies);
            match ParseFrame(s)
            case Stop(err, reply, rest) => o == Outcome(err, [], sent + reply, rest)
            case Got(opcode, payload, rest) =>
              if opcode == PING then o == NextData(rest).(replies := sent + Pong(payload) + NextData(rest).replies)
              else if payload == [] then o == NextData(rest).(replies := sent + NextData(rest).replies)
              else o == Outcome(NoError, WithNewline(payload), sent, rest)
  {
    hide ParseFrame, Pong, WithNewline;
    assert sent + [] == sent;
    match ParseFrame(s)
    case Stop(_, _, _) =>
    case Got(_, payload, rest) =>
      assert sent + (Pong(payload) + NextData(rest).replies) == sent + Pong(payload) + NextData(rest).replies;
  }

  lemma {:induction false} NextDataFacts(s: seq<Byte>)
    ensures NextData(s).err == NoError <==> NextData(s).data != []
    ensures NextData(s).err == NoError ==> |NextData(s).rest| < |s|
    decreases |s|
  {
    hide ParseFrame;
    ParseShrinks(s);
    match ParseFrame(s)
    case Stop(err, _, _) => StopFails(s);
    case Got(opcode, payload, rest) => if opcode == PING || payload == [] { NextDataFacts(rest); }
  }

  lemma StopFails(s: seq<Byte>)
    ensures ParseFrame(s).Stop? ==> ParseFrame(s).err != NoError
  {
    hide Mask, FromBigEndian;
  }

  // ---------------------------------------------------------------- the connection

  /** Unread frame data, the peer's bytes still to come (then the stream ends),
      the bytes sent, and whether the reader closed the connection. */
  datatype Conn = Conn(readBuf: seq<Byte>, input: seq<Byte>, output: seq<Byte>, closed: bool)

  /** Data is at hand, fetched from the next data frame if necessary. */
  function Fetched(c: Conn): Outcome {
    if c.readBuf != [] then Outcome(NoError, c.readBuf, [], c.input) else NextData(c.input)
  }

  function Taken(c: Conn, size: nat): seq<Byte> {
    var data := Fetched(c).data;
    if |data| <= size then data else data[..size]
  }

  /** The connection after reading into a buffer of this size. */
  function ReadStep(c: Conn, size: nat): Conn {
    var o := Fetched(c);
    Conn(o.data[|Taken(c, size)|..], o.rest, c.output + o.replies, c.closed || o.err == TooLarge)
  }

  function FrameHeader(n: nat): seq<Byte> {
    if n <= 125 then [0x81, n]
    else if n <= 65535 then [0x81, 126] + BigEndian(n, 2)
    else [0x81, 127] + BigEndian(n, 8)
  }

  lemma PrefixOfConcat(a: seq<Byte>, b: seq<Byte>, n: nat)
    requires n <= |a + b|
    ensures (a + b)[..n] == if n <= |a| then a[..n] else a + b[..n - |a|]
    ensures a + b[..0] == a
  {
  }

  method UnmaskInPlace(payload: array<Byte>, key: array<Byte>)
    requires key.Length == 4 && payload != key
    modifies payload
    ensures payload[..] == Mask(old(payload[..]), Some(key[..]))
    ensures forall i, j | 0 <= i < payload.Length && 0 <= j < 8 ::
              BitOf(payload[i], j) <==> BitOf(old(payload[i]), j) != BitOf(key[i % 4], j)
  {
    hide XorByte, BitOf;
    for i := 0 to payload.Length
      invariant forall j | 0 <= j < i :: payload[j] == XorByte(old(payload[j]), key[j % 4])
      invariant forall j | i <= j < payload.Length :: payload[j] == old(payload[j])
    {
      payload[i] := XorByte(payload[i], key[i % 4]);
    }
    assert payload[..] == Mask(old(payload[..]), Some(key[..]));
    MaskedExactly(payload[..], old(payload[..]), Some(key[..]));
    forall i, j | 0 <= i < payload.Length && 0 <= j < 8
      ensures BitOf(payload[i], j) <==> BitOf(old(payload[i]), j) != BitOf(key[i % 4], j)
    {
      assert payload[..][i] == payload[i] && old(payload[..])[i] == old(payload[i]);
      assert key[..][i % 4] == key[i % 4];
    }
  }

  class WsConn {
    var readBuf: seq<Byte>
    var input: seq<Byte>
    var output: seq<Byte>
    var closed: bool

    constructor (input: seq<Byte>)
      ensures View() == Conn([], input, [], false)
    {
      this.readBuf, this.input, this.output, this.closed := [], input, [], false;
    }

    function View(): Conn
      reads this
    {
      Conn(readBuf, input, output, closed)
    }

    /** Fills the buffer from the stream, or consumes what is left and fails. */
    method ReadFull(buf: array<Byte>) returns (err: ReadError)
      modifies this`input, buf
      ensures |old(input)| < buf.Length ==>
                err == (if old(input) == [] then EndOfFile else UnexpectedEnd) && input == []
      ensures |old(input)| >= buf.Length ==>
                err == NoError && buf[..] == old(input)[..buf.Length] && input == old(input)[buf.Length..]
    {
      var n := if |input| < buf.Length then |input| else buf.Length;
      forall i | 0 <= i < n {
        buf[i] := input[i];
      }
      input := input[n..];
      err := if n == buf.Length then NoError else if n == 0 then EndOfFile else UnexpectedEnd;
    }

    /** Reads one frame up to its unmasked payload. A close frame is echoed, an
        oversized one closes the connection. */
    method ReadFrame() returns (parsed: Parsed)
      modifies this`input, this`output, this`closed
      ensures parsed == ParseFrame(old(input)) && input == parsed.rest
      ensures output == old(output) + if parsed.Stop? then parsed.reply else []
      ensures closed == (old(closed) || (parsed.Stop? && parsed.err == TooLarge))
    {
      hide Mask, FromBigEndian;
      var hdr := new Byte[2];
      var err := ReadFull(hdr);
      if err != NoError {
        return Stop(err, [], []);
      }
      var opcode: Byte, masked := hdr[0] % 16, hdr[1] >= 128;
      var len: nat := hdr[1] % 128;
      if opcode == CLOSE {
        output := output + [0x88, 0x00];
        return Stop(EndOfFile, [0x88, 0x00], input);
      }
      parsed := ReadRest(opcode, masked, len);
    }

    method ReadRest(opcode: Byte, masked: bool, len: nat) returns (parsed: Parsed)
      requires len < 128
      modifies this`input, this`closed
      ensures parsed == ParseLength(opcode, masked, len, old(input)) && input == parsed.rest
      ensures parsed.Stop? ==> parsed.reply == []
      ensures closed == (old(closed) || (parsed.Stop? && parsed.err == TooLarge))
    {
      hide Mask, FromBigEndian;
      var payloadLen := len;
      if payloadLen == 126 || payloadLen == 127 {
        var ext := new Byte[if payloadLen == 126 then 2 else 8];
        var err := ReadFull(ext);
        if err != NoError {
          return Stop(err, [], []);
        }
        payloadLen := FromBigEndian(ext[..]);
      }
      if payloadLen > MAX_PAYLOAD {
        closed := true;
        return Stop(TooLarge, [], input);
      }
      parsed := ReadPayload(opcode, masked, payloadLen);
    }

    method ReadPayload(opcode: Byte, masked: bool, len: nat) returns (parsed: Parsed)
      requires len <= MAX_PAYLOAD
      modifies this`input
      ensures parsed == ParseBody(opcode, masked, len, old(input)) && input == parsed.rest
      ensures parsed.Stop? ==> parsed.reply == [] && parsed.err != TooLarge
    {
      hide XorByte, Mask;
      var key := new Byte[4];
      if masked {
        var err := ReadFull(key);
        if err != NoError {
          return Stop(err, [], []);
        }
      }
      var payload := new Byte[len];
      var err := ReadFull(payload);
      if err != NoError {
        return Stop(err, [], []);
      }
      if masked {
        UnmaskInPlace(payload, key);
      } else {
        NoMask(payload[..]);
      }
      parsed := Got(opcode, payload[..], input);
    }

    /** Handles frames until there is data at hand. */
    method Fetch() returns (err: ReadError)
      modifies this
      ensures var o := Fetched(old(View()));
              err == o.err && readBuf == o.data && input == o.rest && output == old(output) + o.replies
              && closed == (old(closed) || o.err == TooLarge)
    {
      hide ParseFrame, Pong, NextData;
      ghost var fetched := Fetched(View());
      ghost var sent: seq<Byte> := [];
      while |readBuf| == 0
        invariant output == old(output) + sent && closed == old(closed)
        invariant fetched == Fetched(View()).(replies := sent + Fetched(View()).replies)
        decreases if |readBuf| == 0 then |input| + 1 else 0
      {
        ParseShrinks(input); NextDataStep(input, sent);
        var parsed := ReadFrame();
        if parsed.Stop? {
          return parsed.err;
        }
        if parsed.opcode == PING {
          output := output + Pong(parsed.payload);
          sent := sent + Pong(parsed.payload);
          continue;
        }
        readBuf := WithNewline(parsed.payload);
      }
      err := NoError;
    }

    /** Reads the next data bytes into b. */
    method Read(b: array<Byte>) returns (n: nat, err: ReadError)
      modifies this, b
      ensures View() == ReadStep(old(View()), b.Length)
      ensures err == Fetched(old(View())).err
      ensures n == |Taken(old(View()), b.Length)| <= b.Length
      ensures b[..n] == Taken(old(View()), b.Length) && b[n..] == old(b[n..])
    {
      hide Fetched;
      err := Fetch();
      ghost var data := readBuf;
      n := if |readBuf| < b.Length then |readBuf| else b.Length;
      forall i | 0 <= i < n {
        b[i] := readBuf[i];
      }
      readBuf := readBuf[n..];
      assert b[..n] == data[..n];
    }

    /** Hands bytes to the peer; on failure a part of them may have gone out. */
    method Send(bytes: seq<Byte>) returns (ok: bool, ghost sent: nat)
      modifies this`output
      ensures sent <= |bytes| && (ok ==> sent == |bytes|) && output == old(output) + bytes[..sent]
    {
      ok := *;
      var n: nat :| n <= |bytes|;
      if ok {
        n := |bytes|;
      }
      output := output + bytes[..n];
      sent := n;
    }

    /** Header and payload go out in two writes, and a flush follows. */
    method SendBoth(hdr: seq<Byte>, b: seq<Byte>) returns (ok: bool, ghost sent: nat)
      modifies this`output
      ensures sent <= |hdr + b| && (ok ==> sent == |hdr + b|) && output == old(output) + (hdr + b)[..sent]
    {
      ghost var before := output;
      ok, sent := Send(hdr);
      if !ok {
        PrefixOfConcat(hdr, b, sent);
        return;
      }
      PrefixOfConcat(hdr, b, |hdr|);
      ghost var more;
      ok, more := Send(b);
      sent := |hdr| + more;
      PrefixOfConcat(hdr, b, sent);
      assert before + hdr + b[..more] == before + (hdr + b[..more]);
      if ok {
        ok := *;  // the flush
      }
    }

    /** Sends one unmasked text frame, or fails with a part of it sent. */
    method Write(b: seq<Byte>) returns (n: nat, ok: bool, ghost sent: nat)
      requires |b| < TWO_TO_64
      modifies this`output
      ensures var frame := FrameHeader(|b|) + b;
              sent <= |frame| && (ok ==> sent == |frame|) && output == old(output) + frame[..sent]
      ensures n == if ok then |b| else 0
    {
      hide BigEndian;
      n := |b|;
      var hdr: seq<Byte>;
      if n <= 125 {
        hdr := [0x81, n];
      } else if n <= 65535 {
        hdr := [0x81, 126] + BigEndian(n, 2);
      } else {
        hdr := [0x81, 127] + BigEndian(n, 8);
      }
      assert hdr == FrameHeader(|b|);
      hide FrameHeader;
      ok, sent := SendBoth(hdr, b);
      n := if ok then n else 0;
    }
  }
}
