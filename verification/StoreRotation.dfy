/** What one rotation does to the points of its buffer, in the codec's domain or
    not. The rotation checks nothing: it clears the buffer and the log whatever the
    chunk it wrote decodes to. */
module StoreRotation {
  import opened Words
  import opened Wrappers
  import opened Codec
  import opened CodecProofs
  import opened CodecTheorems
  import opened ChunkFile
  import opened Wal
  import opened IndexFile
  import opened StoreMachine
  import opened StoreInvariant
  import opened StoreSteps
  import opened StoreTheorems
  import opened StoreLimits

  const THREE_STEPS: seq<Event> := [Advance, Advance, Advance]

  /** A rotation goes through: the chunk is created, written and renamed, then
      index.dat, then the log is truncated. */
  const FINISH: seq<Event> := THREE_STEPS + THREE_STEPS + [Advance]

  /** FlushSeries without a failure. */
  const ROTATION: seq<Event> := [Flush] + FINISH

  // ---------------------------------------------------------------- runs in pieces

  lemma {:induction false} RunConcat(s: State, first: seq<Event>, second: seq<Event>)
    ensures Run(s, first + second) == Run(Run(s, first), second)
  {
    hide Next;
    if second == [] {
      assert first + second == first;
    } else {
      RunConcat(s, first, second[..|second| - 1]);
      assert (first + second)[..|first + second| - 1] == first + second[..|second| - 1];
    }
  }

  lemma RunOne(s: State, e: Event)
    ensures Run(s, [e]) == Next(s, e)
  {
    assert [e][..0] == [];
  }

  lemma RunThree(s: State)
    ensures Run(s, THREE_STEPS) == AdvanceStep(AdvanceStep(AdvanceStep(s)))
  {
    hide AdvanceStep;
    assert THREE_STEPS == [Advance] + [Advance] + [Advance];
    RunConcat(s, [Advance] + [Advance], [Advance]); RunConcat(s, [Advance], [Advance]);
    RunOne(s, Advance); RunOne(AdvanceStep(s), Advance); RunOne(AdvanceStep(AdvanceStep(s)), Advance);
  }

  // ---------------------------------------------------------------- one rotation

  /** The state once a file is replaced. */
  function FileReplaced(s: State, r: Rotation, target: Target): State {
    var dir := (s.dir - {TmpName(r, target)})[FinalName(r, target) := DataOf(r, target)];
    if target == ToChunk then
      s.(dir := dir, pc := Replacing(r, ToIndex, Create), chunks := s.chunks[r.entry.name := s.mem.buffer])
    else s.(dir := dir, mem := s.mem.(index := s.mem.index + [r.entry], buffer := []), pc := Truncating(r.ack))
  }

  lemma ThreeSteps(s: State, r: Rotation, target: Target)
    requires s.pc == Replacing(r, target, Create)
    ensures Run(s, THREE_STEPS) == FileReplaced(s, r, target)
  {
    hide DataOf, Run;
    var tmp, data := TmpName(r, target), DataOf(r, target);
    RunThree(s);
    assert tmp != FinalName(r, target);
    assert s.dir[tmp := []][tmp := data] - {tmp} == s.dir - {tmp};
  }

  /** The rotation that starts in this state for this caller. */
  function Started(s: State, ack: Option<Point>): Rotation
    requires s.mem.buffer != []
  {
    BeginRotation(s, ack).pc.r
  }

  lemma Begun(s: State, ack: Option<Point>)
    requires s.mem.buffer != []
    ensures var r := Started(s, ack);
            && BeginRotation(s, ack)
               == s.(mem := s.mem.(nextID := (s.mem.nextID + 1) % TWO_TO_32), pc := Replacing(r, ToChunk, Create))
            && r.ack == ack && r.chunk == ChunkBytes(s.mem.buffer)
            && r.entry.name == ChunkName((s.mem.nextID + 1) % TWO_TO_32)
  {
    hide ChunkBytes, ChunkName, IndexText;
  }

  /** The state a rotation leaves if nothing fails. */
  function Finished(s: State, ack: Option<Point>): State
    requires s.mem.buffer != []
  {
    var r := Started(s, ack);
    var withChunk := (s.dir - {TmpName(r, ToChunk)})[r.entry.name := r.chunk];
    var withIndex := (withChunk - {TmpName(r, ToIndex)})[INDEX_NAME := r.index];
    s.(dir := TruncateWal(withIndex), mem := Mem([], (s.mem.nextID + 1) % TWO_TO_32, s.mem.index + [r.entry]),
       pc := Idle, acked := s.acked + AckOf(ack), chunks := s.chunks[r.entry.name := s.mem.buffer])
  }

  lemma FinishPieces(s: State)
    ensures Run(s, FINISH) == AdvanceStep(Run(Run(s, THREE_STEPS), THREE_STEPS))
  {
    hide Run, Next;
    RunConcat(s, THREE_STEPS + THREE_STEPS, [Advance]);
    RunConcat(s, THREE_STEPS, THREE_STEPS);
    RunOne(Run(s, THREE_STEPS + THREE_STEPS), Advance);
    AdvanceIsStep(Run(s, THREE_STEPS + THREE_STEPS));
  }

  lemma AdvanceIsStep(s: State)
    ensures Next(s, Advance) == AdvanceStep(s)
  {
  }

  lemma TruncationEnds(s: State, ack: Option<Point>)
    requires s.pc == Truncating(ack)
    ensures AdvanceStep(s) == s.(dir := TruncateWal(s.dir), pc := Idle, acked := s.acked + AckOf(ack))
  {
    hide TruncateWal;
  }

  lemma BothReplaced(s: State, ack: Option<Point>)
    requires s.mem.buffer != []
    ensures var r := Started(s, ack);
            var c := FileReplaced(BeginRotation(s, ack), r, ToChunk);
            var d := FileReplaced(c, r, ToIndex);
            && c.pc == Replacing(r, ToIndex, Create) && d.pc == Truncating(ack)
            && d.(dir := TruncateWal(d.dir), pc := Idle, acked := d.acked + AckOf(ack)) == Finished(s, ack)
  {
    hide Started, BeginRotation, TmpName, TruncateWal, ChunkName, ChunkBytes;
    Begun(s, ack);
  }

  lemma Rotated(s: State, ack: Option<Point>)
    requires s.mem.buffer != []
    ensures Run(BeginRotation(s, ack), FINISH) == Finished(s, ack)
  {
    hide Run, Started, BeginRotation, FileReplaced, TruncateWal, ChunkName, ChunkBytes, AdvanceStep, Finished;
    var r, b := Started(s, ack), BeginRotation(s, ack);
    var c := FileReplaced(b, r, ToChunk);
    Begun(s, ack); BothReplaced(s, ack);
    FinishPieces(b);
    ThreeSteps(b, r, ToChunk); ThreeSteps(c, r, ToIndex);
    TruncationEnds(FileReplaced(c, r, ToIndex), ack);
  }

  /** A flush rotates an idle store, and is nothing while a rotation is under way. */
  lemma Flushed(s: State)
    ensures s.pc.Idle? && s.mem.buffer != [] ==> Run(s, ROTATION) == Finished(s, None)
    ensures s.pc.Replacing? ==> Run(s, ROTATION) == Run(s, FINISH)
  {
    hide Run, BeginRotation, Finished;
    RunConcat(s, [Flush], FINISH);
    RunOne(s, Flush);
    if s.mem.buffer != [] { Rotated(s, None); }
  }

  /** Only the new chunk's file differs among the chunk files. */
  lemma FinishedChunks(s: State, ack: Option<Point>)
    requires s.mem.buffer != [] && s.mem.nextID < MAX_CHUNK_ID
    ensures var name, dir := ChunkName(s.mem.nextID + 1), Finished(s, ack).dir;
            && IsChunkName(name) && MatchChunkName(name).value == s.mem.nextID + 1
            && name in dir && dir[name] == ChunkBytes(s.mem.buffer) && Started(s, ack).entry.name == name
            && forall n | IsChunkName(n) && n != name ::
               (n in s.dir <==> n in dir) && (n in s.dir ==> dir[n] == s.dir[n])
  {
    hide MatchChunkName, Started, ChunkBytes, ChunkName;
    Begun(s, ack);
    var name := ChunkName(s.mem.nextID + 1);
    MatchGenerated(s.mem.nextID + 1); NameFacts(name); NameFacts(INDEX_NAME);
    forall n | IsChunkName(n)
      ensures n != WAL_NAME && n != INDEX_NAME && n != name + TMP_SUFFIX && n != INDEX_NAME + TMP_SUFFIX
    {
      NameFacts(n);
    }
  }

  /** A rotation that goes through shows the committed points and, in place of the
      buffer, what its chunk decodes to. It holds what was held before. */
  lemma FinishedShows(s: State, ack: Option<Point>)
    requires Consistent(s) && s.mem.buffer != [] && s.mem.nextID < MAX_CHUNK_ID
    requires ReadChunk(ChunkBytes(s.mem.buffer)).ChunkPoints?
    ensures Visible(Finished(s, ack)) == Committed(s.dir, s.mem.index) + ReadChunk(ChunkBytes(s.mem.buffer)).points
    ensures Kept(Finished(s, ack)) == Kept(s)
  {
    hide ReadChunk, ChunkBytes, ChunkName, MatchChunkName, ChunksOk, Started, Committed, Written, TruncateWal, TmpName;
    FinishedChunks(s, ack);
    var s', e := Finished(s, ack), Started(s, ack).entry;
    CommittedFrame(s.dir, s'.dir, s.mem.index);
    CommittedAppend(s'.dir, s.mem.index, e);
    WrittenFrame(s.chunks, s'.chunks, s.mem.index);
    WrittenAppend(s'.chunks, s.mem.index, e);
  }

  /** In every run, crashes, failures and lossy rotations included: the next rotation
      leaves what the store shows unchanged if and only if the buffer lies in the
      codec's domain. Otherwise it shows as many points, but not the same. */
  lemma RotationKeepsExactly(evs: seq<Event>)
    requires RotatesFairly(evs, MAX_CHUNK_ID)
    requires var s := Run(FRESH, evs);
             s.pc.Idle? && s.mem.buffer != [] && s.mem.nextID < MAX_CHUNK_ID && LengthsFit(s.mem.buffer)
    ensures var s, s' := Run(FRESH, evs), Run(FRESH, evs + ROTATION);
            && s'.mem.buffer == [] && s'.acked == s.acked && Kept(s') == Kept(s) && |Visible(s')| == |Visible(s)|
            && (Visible(s') == Visible(s) <==> InDomain(s.mem.buffer))
  {
    hide Run, Committed, ReadChunk, ChunkBytes, InDomain, LengthsFit, Started, Consistent, Visible, Kept, TruncateWal,
         TmpName;
    var s := Run(FRESH, evs);
    InvRun(evs);
    RunConcat(FRESH, evs, ROTATION);
    Flushed(s);
    ChunkRoundTrip(s.mem.buffer);
    FinishedShows(s, None);
    ShownWith(s);
    assert s.acked + [] == s.acked;
    SuffixEqual(Committed(s.dir, s.mem.index), ReadChunk(ChunkBytes(s.mem.buffer)).points, s.mem.buffer);
  }

  lemma ShownWith(s: State)
    ensures Visible(s) == Committed(s.dir, s.mem.index) + s.mem.buffer
  {
  }

  lemma SuffixEqual(a: seq<Point>, b: seq<Point>, c: seq<Point>)
    ensures a + b == a + c <==> b == c
  {
    assert (a + b)[|a|..] == b && (a + c)[|a|..] == c;
  }

  // ---------------------------------------------------------------- two points

  /** Two points are written and acknowledged. */
  function TwoWrites(p: Point, q: Point): seq<Event> {
    [Submit(p)] + [Advance] + [Submit(q)] + [Advance]
  }

  /** The first point is acknowledged and the second about to be logged. */
  lemma SecondSubmitted(p: Point, q: Point)
    ensures Run(FRESH, [Submit(p)] + [Advance] + [Submit(q)])
         == State(map[WAL_NAME := Record(p)], Mem([p], 0, []), Logging(q), [p, q], [p], [p], map[])
  {
    hide Run, Record, ShouldRotate, LengthsFit, InDomain;
    SingleFits(p);
    assert [] + [p] == [p] && [p] + [q] == [p, q] && [] + Record(p) == Record(p);
    RunOne(FRESH, Submit(p));
    var s := Run(FRESH, [Submit(p)]);
    RunConcat(FRESH, [Submit(p)], [Advance]); RunOne(s, Advance);
    var s' := Run(FRESH, [Submit(p)] + [Advance]);
    assert s' == State(map[WAL_NAME := Record(p)], Mem([p], 0, []), Idle, [p], [p], [p], map[]);
    RunConcat(FRESH, [Submit(p)] + [Advance], [Submit(q)]); RunOne(s', Submit(q));
  }

  /** Two points logged and buffered in a new store. */
  function BothBuffered(p: Point, q: Point, pc: Pc, acked: seq<Point>): State {
    State(map[WAL_NAME := Record(p) + Record(q)], Mem([p, q], 0, []), pc, [p, q], [p, q], acked, map[])
  }

  /** Whether the second write or the flush starts the rotation, it ends the same. */
  lemma TwoRotated(p: Point, q: Point) returns (s: State, ack: Option<Point>)
    ensures s == BothBuffered(p, q, s.pc, s.acked) && s.acked + AckOf(ack) == [p, q]
    ensures Run(FRESH, TwoWrites(p, q) + ROTATION) == Finished(s, ack)
  {
    hide Run, Record, ShouldRotate, BeginRotation, Finished;
    var first := [Submit(p)] + [Advance] + [Submit(q)];
    var t := Run(FRESH, first);
    SecondSubmitted(p, q);
    assert [p] + [q] == [p, q] && [p, q] + [] == [p, q];
    RunConcat(FRESH, first, [Advance]); RunOne(t, Advance);
    RunConcat(FRESH, TwoWrites(p, q), ROTATION);
    var s1 := Run(FRESH, TwoWrites(p, q));
    assert s1 == AdvanceStep(t);
    Flushed(s1);
    if ShouldRotate([p, q]) {
      s, ack := BothBuffered(p, q, Logging(q), [p]), Some(q);
      assert s == Buffered(t, q);
      BeginReplaces(s, ack);
      Rotated(s, ack);
      assert s1 == BeginRotation(s, ack);
    } else {
      s, ack := BothBuffered(p, q, Idle, [p, q]), None;
      assert s1 == s;
    }
  }

  lemma BeginReplaces(s: State, ack: Option<Point>)
    requires s.mem.buffer != []
    ensures BeginRotation(s, ack).pc.Replacing?
  {
  }

  lemma BothConsistent(p: Point, q: Point, pc: Pc, acked: seq<Point>)
    ensures Consistent(BothBuffered(p, q, pc, acked))
  {
    hide Record, MatchChunkName;
    NameFacts(WAL_NAME);
  }

  /** Two values stay in the domain exactly when they are equal or differ in one
      of their upper 32 bits. */
  lemma TwoInRange(p: Point, q: Point)
    ensures TimesInRange(Times([p, q]))
    ensures ValuesInRange(Values([p, q])) <==> p.bits == q.bits || p.bits / 0x1_0000_0000 != q.bits / 0x1_0000_0000
  {
    hide XorNat, Shr;
    var vs, x := Values([p, q]), Xor(q.bits, p.bits);
    assert WindowAt(vs, 1) == NoWindow && |vs| == 2;
    assert ValuesInRange(vs) <==> WindowFits(Xor(vs[1], vs[0]), NoWindow);
    Pow2Values();
    XorNatCancel(q.bits, p.bits);
    XorShr(q.bits, p.bits, 32);
    XorNatCancel(Shr(q.bits, 32), Shr(p.bits, 32));
    ShrIsDivide(x, 32); ShrIsDivide(p.bits, 32); ShrIsDivide(q.bits, 32);
  }

  /** Any two points written to a new store and flushed, with no crash and no failure:
      nothing acknowledged is lost if and only if the two values are equal or differ
      in one of their upper 32 bits. */
  lemma TwoPointsKeptExactly(p: Point, q: Point)
    ensures Run(FRESH, TwoWrites(p, q) + ROTATION).acked == [p, q]
    ensures NothingLost(Run(FRESH, TwoWrites(p, q) + ROTATION))
       <==> p.bits == q.bits || p.bits / 0x1_0000_0000 != q.bits / 0x1_0000_0000
  {
    hide Run, ReadChunk, ChunkBytes, Started, Visible, Kept, TruncateWal, TmpName, Record, Consistent;
    var back := TwoRead(p, q);
    var s, ack := TwoRotated(p, q);
    BothConsistent(p, q, s.pc, s.acked);
    FinishedShows(s, ack);
    NothingCommitted(s.dir);
    assert Visible(Finished(s, ack)) == [] + back;
    TwoLost(p, q, back);
  }

  /** What the chunk of the two points reads back as. */
  lemma TwoRead(p: Point, q: Point) returns (back: seq<Point>)
    ensures ReadChunk(ChunkBytes([p, q])) == ChunkPoints(back) && |back| == 2
    ensures back[0] == p && Times(back) == Times([p, q])
    ensures Values(back) == Values([p, q]) <==> p.bits == q.bits || p.bits / 0x1_0000_0000 != q.bits / 0x1_0000_0000
  {
    hide ReadChunk, ChunkBytes, InDomain, TimesInRange, ValuesInRange;
    LengthsFitBound([p, q]);
    ChunkRoundTrip([p, q]);
    TwoInRange(p, q);
    back := ReadChunk(ChunkBytes([p, q])).points;
  }

  lemma TwoLost(p: Point, q: Point, back: seq<Point>)
    requires |back| == 2 && back[0] == p && Times(back) == Times([p, q])
    ensures multiset([p, q]) <= multiset(back) <==> Values(back) == Values([p, q])
  {
    var r := back[1];
    assert back == [p, r] && multiset(back) == multiset{p, r} && multiset([p, q]) == multiset{p, q};
    assert Times(back)[1] == r.ts && Times([p, q])[1] == q.ts;
    assert Values(back)[1] == r.bits && Values([p, q])[1] == q.bits;
    if multiset{p, q} <= multiset{p, r} {
      assert multiset{p, q}[q] <= multiset{p, r}[q];
      assert q == r;
    }
    if Values(back) == Values([p, q]) {
      assert q == r;
    }
  }

  /** Such points exist, and one of them is lost. */
  lemma RotationLoses() returns (p: Point, q: Point)
    ensures !NothingLost(Run(FRESH, TwoWrites(p, q) + ROTATION))
  {
    hide Run, NothingLost;
    p, q := Point(0, 0), Point(1, 1);
    TwoPointsKeptExactly(p, q);
  }
}
