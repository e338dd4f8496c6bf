/** Runs without crashes: the log is the buffer while log operations succeed, the
    buffer is below the rotation limits after every acknowledgement, and while
    rotations succeed a rebuilt index agrees with index.dat. */
module StoreCalm {
  import opened Words
  import opened Wrappers
  import opened ChunkFile
  import opened CodecTheorems
  import opened Wal
  import opened IndexFile
  import opened StoreMachine
  import opened StoreInvariant
  import opened StoreSteps
  import opened StoreDurability
  import opened StoreTheorems

  /** Nothing crashes, and no operation fails between the start of a rotation and
      the publication of its index. Log appends and truncations may fail. */
  ghost predicate CalmRun(evs: seq<Event>) {
    evs != [] ==>
      var before, e := evs[..|evs| - 1], evs[|evs| - 1];
      CalmRun(before) && !e.Crash? && (e.Fail? ==> !Run(FRESH, before).pc.Replacing?)
  }

  /** Chunks are numbered without gaps, every chunk file is indexed (but for the
      one whose index entry is being written), and its header says what the
      index says. */
  ghost predicate Numbered(s: State) {
    && (forall i | 0 <= i < |s.mem.index| ::
          s.mem.index[i].name == ChunkName(i + 1) && ScanEntry(s.dir, s.mem.index[i].name) == Some(s.mem.index[i]))
    && s.mem.nextID == |s.mem.index| + (if s.pc.Replacing? then 1 else 0)
    && (forall name | name in s.dir && IsChunkName(name) ::
          Indexed(s.mem.index, name) || (s.pc.Replacing? && s.pc.target == ToIndex && name == s.pc.r.entry.name))
  }

  ghost predicate Indexed(index: seq<IndexEntry>, name: string) {
    exists i | 0 <= i < |index| :: index[i].name == name
  }

  ghost predicate Calm(s: State) {
    && !s.pc.Down? && Numbered(s)
    && (s.pc.Idle? || s.pc.Logging? ==> !ShouldRotate(s.mem.buffer))
  }

  lemma NumberedQuiet(s: State, s': State)
    requires Running(s) && Numbered(s) && SameChunks(s.dir, s'.dir) && s'.mem.index == s.mem.index
    requires s'.mem.nextID == s'.mem.nextID == |s.mem.index| + (if s'.pc.Replacing? then 1 else 0)
    requires s.pc.Replacing? && s.pc.target == ToIndex ==>
               s'.pc.Replacing? && s'.pc.target == ToIndex && s'.pc.r == s.pc.r
    ensures Numbered(s')
  {
    hide ChunkName, MatchChunkName, ReadHeader, Consistent, PcOk;
    forall i | 0 <= i < |s.mem.index|
      ensures ScanEntry(s'.dir, s.mem.index[i].name) == ScanEntry(s.dir, s.mem.index[i].name)
    {
      assert ScanEntry(s.dir, s.mem.index[i].name).Some?;
      assert IsChunkName(s.mem.index[i].name);
    }
  }

  lemma CalmBegin(s: State, ack: Option<Point>)
    requires Consistent(s) && Numbered(s) && !s.pc.Replacing? && s.mem.buffer != [] && s.mem.nextID < MAX_CHUNK_ID
    ensures Numbered(BeginRotation(s, ack)) && BeginRotation(s, ack).pc.Replacing?
  {
    hide ChunkBytes, IndexText, Consistent;
  }

  lemma CalmLogged(s: State)
    requires Running(s) && Calm(s) && s.pc.Logging? && RotatesSafely(s, Advance, MAX_CHUNK_ID)
    ensures Calm(AdvanceStep(s))
  {
    hide Numbered, BeginRotation, LengthsFit, SameChunks, Consistent;
    var p := s.pc.p;
    WalGrows(s, Record(p));
    var s' := Buffered(s, p);
    NumberedIds(s);
    NumberedQuiet(s, s');
    ConsistentElsewhere(s.(dir := s'.dir), s');
    if ShouldRotate(s'.mem.buffer) {
      CalmBegin(s', Some(p));
    } else {
      NumberedQuiet(s, s'.(pc := Idle, acked := s.acked + [p]));
    }
  }

  lemma NumberedIds(s: State)
    requires Numbered(s)
    ensures s.mem.nextID == |s.mem.index| + (if s.pc.Replacing? then 1 else 0)
  {
  }

  lemma CalmTmp(s: State)
    requires Running(s) && Calm(s) && s.pc.Replacing? && s.pc.stage != Rename
    ensures Calm(AdvanceStep(s))
  {
    hide Numbered, SameChunks, Consistent, TmpName, DataOf;
    TmpPhase(s);
    NumberedIds(s);
    NumberedQuiet(s, AdvanceStep(s));
  }

  lemma CalmTruncated(s: State)
    requires Running(s) && Calm(s) && s.pc.Truncating?
    ensures Calm(AdvanceStep(s))
  {
    hide Numbered, SameChunks, Consistent, TruncateWal;
    TruncateStep(s);
    NumberedIds(s);
    NumberedQuiet(s, AdvanceStep(s));
  }

  lemma CalmChunkRename(s: State)
    requires Running(s) && Calm(s) && s.pc.Replacing? && s.pc.target == ToChunk && s.pc.stage == Rename
    ensures Calm(AdvanceStep(s))
  {
    hide MatchChunkName, ChunkName, Consistent, LengthsFit, ChunkBytes, IndexText;
    ChunkRenamedDir(s);
    var s' := AdvanceStep(s);
    assert s'.mem == s.mem && s'.pc == Replacing(s.pc.r, ToIndex, Create);
    forall i | 0 <= i < |s.mem.index|
      ensures ScanEntry(s'.dir, s.mem.index[i].name) == ScanEntry(s.dir, s.mem.index[i].name)
    {
      assert s.mem.index[i] in s.mem.index;
      assert ScanEntry(s.dir, s.mem.index[i].name).Some?;
    }
  }

  lemma CalmIndexRename(s: State)
    requires Running(s) && Calm(s) && s.pc.Replacing? && s.pc.target == ToIndex && s.pc.stage == Rename
    ensures Calm(AdvanceStep(s))
  {
    hide ReadHeader, WalOf, Consistent, LengthsFit, InDomain, ChunkBytes, ToBytes, IndexText, RenameFile, Indexed;
    IndexRenamedDir(s);
    var r, s' := s.pc.r, AdvanceStep(s);
    assert s'.mem.index == s.mem.index + [r.entry] && s'.pc == Truncating(r.ack) && s'.mem.nextID == s.mem.nextID;
    NewEntryScanned(s);
    forall i | 0 <= i < |s'.mem.index|
      ensures s'.mem.index[i].name == ChunkName(i + 1)
              && ScanEntry(s'.dir, s'.mem.index[i].name) == Some(s'.mem.index[i])
    {
      if i < |s.mem.index| {
        SameScan(s.dir, s'.dir, s.mem.index[i].name);
      } else {
        SameScan(s.dir, s'.dir, r.entry.name);
      }
    }
    forall name | name in s'.dir && IsChunkName(name) ensures Indexed(s'.mem.index, name) {
      IndexedAppend(s.mem.index, r.entry, name);
    }
  }

  lemma IndexedAppend(index: seq<IndexEntry>, e: IndexEntry, name: string)
    requires Indexed(index, name) || name == e.name
    ensures Indexed(index + [e], name)
  {
    if name == e.name {
      assert (index + [e])[|index|].name == name;
    } else {
      var i :| 0 <= i < |index| && index[i].name == name;
      assert (index + [e])[i].name == name;
    }
  }

  lemma SameScan(dir: Dir, dir': Dir, name: string)
    requires ScanEntry(dir, name).Some?
    requires forall n | IsChunkName(n) :: (n in dir <==> n in dir') && (n in dir ==> dir[n] == dir'[n])
    ensures ScanEntry(dir', name) == ScanEntry(dir, name)
  {
    hide MatchChunkName, ReadHeader;
    assert IsChunkName(name);
  }

  lemma NewEntryScanned(s: State)
    requires Running(s) && s.pc.Replacing? && s.pc.target == ToIndex
    ensures ScanEntry(s.dir, s.pc.r.entry.name) == Some(s.pc.r.entry)
  {
    hide ReadHeader, InDomain, ChunkBytes, ToBytes, IndexText, MatchChunkName, ChunkName, LengthsFit, Visible;
    MatchGenerated(s.mem.nextID);
    HeaderRoundTrip(s.mem.buffer);
    CountFits(s.mem.buffer);
  }

  lemma CountFits(buf: seq<Point>)
    requires LengthsFit(buf)
    ensures |buf| % TWO_TO_32 == |buf|
  {
    hide Payload, Codec.Encoded;
  }

  lemma CalmStep(s: State, e: Event)
    requires Running(s) && Calm(s) && RotatesSafely(s, e, MAX_CHUNK_ID)
    requires !e.Crash? && (e.Fail? ==> !s.pc.Replacing?)
    ensures Calm(Next(s, e))
  {
    hide Running, AdvanceStep, BeginRotation, Numbered;
    match e
    case Submit(p) => if s.pc.Idle? { CalmSubmit(s, p); }
    case Flush => if s.pc.Idle? && s.mem.buffer != [] { CalmFlush(s); }
    case Advance => CalmAdvance(s);
    case Fail(n) => CalmFail(s, n);
    case Open(_, _, _) =>
  }

  lemma CalmFail(s: State, n: nat)
    requires Running(s) && Calm(s) && !s.pc.Replacing?
    ensures Calm(FailStep(s, n))
  {
    hide Numbered, Consistent;
    PartialStep(s, n);
    SameChunksRefl(s.dir);
    NumberedIds(s);
    NumberedQuiet(s, FailStep(s, n));
    EmptyBelowLimits();
  }

  lemma CalmSubmit(s: State, p: Point)
    requires Running(s) && Calm(s) && s.pc.Idle?
    ensures Calm(s.(pc := Logging(p), submitted := s.submitted + [p]))
  {
    hide Numbered, SameChunks, Consistent;
    SameChunksRefl(s.dir);
    NumberedIds(s);
    NumberedQuiet(s, s.(pc := Logging(p), submitted := s.submitted + [p]));
  }

  lemma CalmFlush(s: State)
    requires Running(s) && Calm(s) && s.pc.Idle? && s.mem.buffer != [] && RotatesSafely(s, Flush, MAX_CHUNK_ID)
    ensures Calm(BeginRotation(s, None))
  {
    hide Numbered, Consistent, LengthsFit, BeginRotation;
    CalmBegin(s, None);
  }

  lemma CalmAdvance(s: State)
    requires Running(s) && Calm(s) && RotatesSafely(s, Advance, MAX_CHUNK_ID)
    ensures Calm(AdvanceStep(s))
  {
    hide Running, AdvanceStep, Numbered, ShouldRotate;
    match s.pc
    case Idle => AdvanceIdle(s);
    case Logging(_) => CalmLogged(s);
    case Replacing(_, ToChunk, Rename) => CalmChunkRename(s);
    case Replacing(_, ToIndex, Rename) => CalmIndexRename(s);
    case Replacing(_, _, _) => CalmTmp(s);
    case Truncating(_) => CalmTruncated(s);
  }

  lemma {:induction false} CalmInvariant(evs: seq<Event>)
    requires RotatesFairly(evs, MAX_CHUNK_ID) && CalmRun(evs)
    ensures Calm(Run(FRESH, evs))
  {
    hide Calm, Next, Running, RotatesSafely;
    if evs == [] {
      CalmFresh();
    } else {
      var before := evs[..|evs| - 1];
      CalmInvariant(before);
      InvRun(before);
      CalmUp(Run(FRESH, before));
      CalmStep(Run(FRESH, before), evs[|evs| - 1]);
    }
  }

  lemma CalmFresh()
    ensures Calm(FRESH)
  {
  }

  lemma CalmUp(s: State)
    requires Calm(s)
    ensures !s.pc.Down?
  {
  }

  // ---------------------------------------------------------------- the log is the buffer

  /** Nothing crashes, failed log appends leave nothing, and truncations succeed.
      Chunk and index operations may fail. */
  ghost predicate LogKept(evs: seq<Event>) {
    evs != [] ==>
      var before, e := evs[..|evs| - 1], evs[|evs| - 1];
      var pc := Run(FRESH, before).pc;
      LogKept(before) && !e.Crash? && (e.Fail? ==> !pc.Truncating? && (pc.Logging? ==> e.n == 0))
  }

  ghost predicate LogIsBuffer(s: State) {
    !s.pc.Down? && |WalOf(s.dir)| % RECORD_SIZE == 0 && (!s.pc.Truncating? ==> Recovered(WalOf(s.dir)) == s.mem.buffer)
  }

  lemma LogAdvance(s: State)
    requires Running(s) && LogIsBuffer(s) && RotatesSafely(s, Advance, MAX_CHUNK_ID)
    ensures LogIsBuffer(AdvanceStep(s))
  {
    hide Running, AdvanceStep, Kept, Recovered, WalOf, RotatesSafely, SameChunks;
    match s.pc
    case Idle => AdvanceIdle(s);
    case Logging(p) => LoggedState(s); RunningConsistent(s); WalGrows(s, Record(p)); AppendAligned(WalOf(s.dir), p);
    case Replacing(_, ToChunk, Rename) => ReplacingSteps(s); ChunkRename(s);
    case Replacing(_, ToIndex, Rename) => ReplacingSteps(s); IndexRename(s);
    case Replacing(_, _, _) => ReplacingSteps(s); TmpPhase(s);
    case Truncating(_) => TruncatingSteps(s); TruncateStep(s); NothingRecovered();
  }

  /** Until its index is in place, a rotation keeps the buffer. */
  lemma ReplacingSteps(s: State)
    requires Running(s) && s.pc.Replacing?
    ensures var s' := AdvanceStep(s);
            if s.pc.target == ToIndex && s.pc.stage == Rename then s'.pc.Truncating?
            else !s'.pc.Down? && s'.mem == s.mem
  {
    hide Consistent, TmpName, DataOf, RenameFile;
  }

  lemma TruncatingSteps(s: State)
    requires Running(s) && s.pc.Truncating?
    ensures AdvanceStep(s).pc.Idle? && AdvanceStep(s).mem.buffer == []
  {
    hide Consistent;
  }

  lemma LogStep(s: State, e: Event)
    requires Running(s) && LogIsBuffer(s) && RotatesSafely(s, e, MAX_CHUNK_ID)
    requires !e.Crash? && (e.Fail? ==> !s.pc.Truncating? && (s.pc.Logging? ==> e.n == 0))
    ensures LogIsBuffer(Next(s, e))
  {
    hide Running, AdvanceStep, Partial, BeginRotation, WalOf, Recovered, SameChunks;
    match e
    case Submit(_) =>
    case Flush => if s.pc.Idle? && s.mem.buffer != [] { BeginKeeps(s); NotLogging(s); }
    case Advance => LogAdvance(s);
    case Fail(n) => PartialStep(s, n); PartialLog(s, n); assert s.mem.buffer + [] == s.mem.buffer;
    case Open(_, _, _) =>
  }

  lemma {:induction false} LogRun(evs: seq<Event>)
    requires RotatesFairly(evs, MAX_CHUNK_ID) && LogKept(evs)
    ensures LogIsBuffer(Run(FRESH, evs))
  {
    hide LogIsBuffer, Next, Running, RotatesSafely;
    if evs == [] {
      LogFresh();
    } else {
      var before := evs[..|evs| - 1];
      LogRun(before);
      InvRun(before);
      LogUp(Run(FRESH, before));
      LogStep(Run(FRESH, before), evs[|evs| - 1]);
    }
  }

  lemma LogFresh()
    ensures LogIsBuffer(FRESH)
  {
  }

  lemma LogUp(s: State)
    requires LogIsBuffer(s)
    ensures !s.pc.Down?
  {
  }

  /** In every run without crashes, whatever fails, the store holds the logged
      writes in order, and shows them if and only if the codec restores every indexed
      chunk. Outside truncation the log on disk holds exactly the buffer, as long as
      failed appends leave nothing and truncations succeed. Between calls the buffer
      is below both rotation limits, as long as rotations succeed. */
  lemma CalmRefinement(evs: seq<Event>)
    requires RotatesFairly(evs, MAX_CHUNK_ID) && CrashFree(evs)
    ensures var s := Run(FRESH, evs);
            && Kept(s) == s.logged && (Visible(s) == s.logged <==> Lossless(s))
            && (LogKept(evs) && !s.pc.Truncating? ==> Recovered(WalOf(s.dir)) == s.mem.buffer)
            && (CalmRun(evs) && s.pc.Idle? ==> |s.mem.buffer| < 10_000 && SpanOf(s.mem.buffer) < 7_200)
  {
    hide Next, Kept, Visible, Lossless, Numbered;
    CrashFreeOrder(evs);
    if LogKept(evs) { LogRun(evs); }
    if CalmRun(evs) { CalmInvariant(evs); BelowLimits(Run(FRESH, evs).mem.buffer); }
  }

  /** The seconds from the first to the last of at least two points: their difference
      modulo 2^64, read as a signed number. */
  function SpanOf(buf: seq<Point>): int {
    if |buf| < 2 then 0
    else
      var d := (buf[|buf| - 1].ts - buf[0].ts) % 0x1_0000_0000_0000_0000;
      if d < 0x8000_0000_0000_0000 then d else d - 0x1_0000_0000_0000_0000
  }

  lemma BelowLimits(buf: seq<Point>)
    ensures !ShouldRotate(buf) <==> |buf| < 10_000 && SpanOf(buf) < 7_200
  {
    RotatesAtLimits(buf);
  }

  /** A rotation empties the buffer before it truncates the log. */
  ghost predicate EmptyTruncating(s: State) {
    s.pc.Truncating? ==> s.mem.buffer == []
  }

  lemma EmptyTruncatingStep(s: State, e: Event)
    requires EmptyTruncating(s)
    ensures EmptyTruncating(Next(s, e))
  {
    hide ShouldRotate, Record, Rebuilt, Partial, RewriteIndex, LoadIndexFile, ChunkBytes, IndexText, MaxID, RenameFile;
  }

  lemma {:induction false} EmptyTruncatingRun(evs: seq<Event>)
    ensures EmptyTruncating(Run(FRESH, evs))
  {
    hide Next;
    if evs != [] {
      EmptyTruncatingRun(evs[..|evs| - 1]);
      EmptyTruncatingStep(Run(FRESH, evs[..|evs| - 1]), evs[|evs| - 1]);
    }
  }

  /** In every run, with no assumption at all, the event that acknowledges a point,
      or ends the log truncation of a flush, leaves the buffer below both rotation
      limits. */
  lemma AcknowledgedBelowLimits(evs: seq<Event>, e: Event)
    ensures var s, s' := Run(FRESH, evs), Next(Run(FRESH, evs), e);
            s'.acked != s.acked || (s.pc.Truncating? && s'.pc.Idle?) ==>
              s'.pc.Idle? && |s'.mem.buffer| < 10_000 && SpanOf(s'.mem.buffer) < 7_200
  {
    hide Run, ShouldRotate, Record, RewriteIndex, LoadIndexFile, Rebuilt, AppendWal, TruncateWal, Partial, RenameFile,
      SpanOf;
    EmptyTruncatingRun(evs);
    EmptyBelowLimits();
    BelowLimits(Next(Run(FRESH, evs), e).mem.buffer);
  }

  /** Nor does a rotation start any earlier: from any state, a successful log append
      starts one exactly when the buffer with the new point reaches a limit, and
      otherwise acknowledges the point and leaves chunks and index alone. */
  lemma RotatesOnlyAtLimits(s: State)
    requires s.pc.Logging?
    ensures var s', buf := Next(s, Advance), s.mem.buffer + [s.pc.p];
            && s'.mem.buffer == buf && s'.mem.index == s.mem.index
            && if |buf| >= 10_000 || SpanOf(buf) >= 7_200 then s'.pc.Replacing? && s'.acked == s.acked
               else s'.pc.Idle? && s'.acked == s.acked + [s.pc.p] && s'.mem == s.mem.(buffer := buf)
  {
    hide ShouldRotate, SpanOf, Record, ChunkBytes, IndexText, ChunkName;
    BelowLimits(s.mem.buffer + [s.pc.p]);
  }

  // ---------------------------------------------------------------- rebuilding the index

  lemma NumberedDistinct(s: State)
    requires Numbered(s)
    ensures DistinctNames(s.mem.index)
  {
    hide ChunkName, ScanEntry, Indexed;
    forall i, j | 0 <= i < j < |s.mem.index| ensures s.mem.index[i].name != s.mem.index[j].name {
      if s.mem.index[i].name == s.mem.index[j].name {
        ChunkNameInjective(i + 1, j + 1);
      }
    }
  }

  ghost predicate StrictlyIncreasing(es: seq<IndexEntry>) {
    forall i, j | 0 <= i < j < |es| :: es[i].start < es[j].start
  }

  /** A sorted rearrangement of a strictly increasing list is that list. */
  lemma {:induction false} SortedUnique(es: seq<IndexEntry>, fs: seq<IndexEntry>)
    requires StrictlyIncreasing(es) && SortedByStart(fs) && DistinctNames(fs)
    requires forall e :: e in es <==> e in fs
    ensures es == fs
  {
    assert fs == [] || fs[0] in fs;
    if es != [] {
      assert es[0] in es && es[0] in fs;
      var k :| 0 <= k < |fs| && fs[k] == es[0];
      assert fs[0] in fs && fs[0] in es;
      var j :| 0 <= j < |es| && es[j] == fs[0];
      assert j == 0 && fs[0] == es[0];
      forall e ensures e in es[1..] <==> e in fs[1..] {
        RestMembers(es, fs, e);
      }
      SortedUnique(es[1..], fs[1..]);
      assert es == [es[0]] + es[1..] && fs == [fs[0]] + fs[1..];
    }
  }

  lemma RestMembers(es: seq<IndexEntry>, fs: seq<IndexEntry>, e: IndexEntry)
    requires es != [] && fs != [] && es[0] == fs[0] && StrictlyIncreasing(es) && DistinctNames(fs)
    requires forall e :: e in es <==> e in fs
    ensures e in es[1..] <==> e in fs[1..]
  {
    assert es == [es[0]] + es[1..] && fs == [fs[0]] + fs[1..];
    if e in es[1..] {
      var i :| 0 <= i < |es[1..]| && es[1..][i] == e;
      assert es[i + 1] == e && e in es && e != es[0];
    }
    if e in fs[1..] {
      var i :| 0 <= i < |fs[1..]| && fs[1..][i] == e;
      assert fs[i + 1] == e && e in fs && e != fs[0];
    }
  }

  /** After any run without crashes and failed rotations, whatever order a header
      scan puts equal start times in, it finds exactly the entries of the memory
      index, and the same list when start times strictly increase; index.dat, once
      written, holds that list; and the next chunk id is free. */
  lemma RebuildAgrees(evs: seq<Event>, scan: seq<IndexEntry>)
    requires RotatesFairly(evs, MAX_CHUNK_ID) && CalmRun(evs) && !Run(FRESH, evs).pc.Replacing?
    requires IsScan(Run(FRESH, evs).dir, scan)
    ensures var s := Run(FRESH, evs);
            && (forall e :: e in scan <==> e in s.mem.index)
            && (StrictlyIncreasing(s.mem.index) ==> scan == s.mem.index)
            && (LoadIndexFile(s.dir).Some? ==> LoadIndexFile(s.dir).value == s.mem.index)
            && MaxID(scan) == s.mem.nextID
            && forall e | e in scan :: e.name != ChunkName(s.mem.nextID + 1)
  {
    hide Next, RotatesFairly, LoadIndexFile, ChunkName, ReadHeader, MatchChunkName, ChunksOk, WalOf, Visible,
         ShouldRotate, MaxID, Indexed;
    var s := Run(FRESH, evs);
    CalmInvariant(evs);
    InvRun(evs);
    forall e ensures e in scan <==> e in s.mem.index {
      ScanMember(s, scan, e);
    }
    NumberedDistinct(s);
    if StrictlyIncreasing(s.mem.index) {
      ScanSorted(s.dir, scan);
      SortedUnique(s.mem.index, scan);
    }
    BackedLoaded(s.dir, s.mem.index);
    ScanMax(s, scan);
  }

  lemma BackedLoaded(dir: Dir, es: seq<IndexEntry>)
    requires IndexBacked(dir, es)
    ensures LoadIndexFile(dir).Some? ==> LoadIndexFile(dir).value == es
  {
  }

  lemma ScanSorted(dir: Dir, scan: seq<IndexEntry>)
    requires IsScan(dir, scan)
    ensures SortedByStart(scan) && DistinctNames(scan)
  {
  }

  lemma ScanMember(s: State, scan: seq<IndexEntry>, e: IndexEntry)
    requires Numbered(s) && !s.pc.Replacing? && IsScan(s.dir, scan)
    ensures e in scan <==> e in s.mem.index
  {
    hide ChunkName, ReadHeader, MatchChunkName;
    if e in scan {
      assert ScanEntry(s.dir, e.name) == Some(e);
      assert e.name in s.dir && IsChunkName(e.name);
      var i :| 0 <= i < |s.mem.index| && s.mem.index[i].name == e.name;
      assert s.mem.index[i] == e;
    }
    if e in s.mem.index {
      var i :| 0 <= i < |s.mem.index| && s.mem.index[i] == e;
      assert ScanEntry(s.dir, e.name) == Some(e);
      assert e.name in s.dir;
    }
  }

  lemma ScanMax(s: State, scan: seq<IndexEntry>)
    requires Numbered(s) && !s.pc.Replacing? && s.mem.nextID <= MAX_CHUNK_ID
    requires forall e :: e in scan <==> e in s.mem.index
    ensures MaxID(scan) == s.mem.nextID
    ensures forall e | e in scan :: e.name != ChunkName(s.mem.nextID + 1)
  {
    hide ChunkName, ScanEntry, MatchChunkName, MaxID, Indexed;
    forall e | e in scan
      ensures IsChunkName(e.name) && MatchChunkName(e.name).value <= s.mem.nextID
              && e.name != ChunkName(s.mem.nextID + 1)
    {
      var i :| 0 <= i < |s.mem.index| && s.mem.index[i] == e;
      MatchGenerated(i + 1);
      if e.name == ChunkName(s.mem.nextID + 1) {
        ChunkNameInjective(i + 1, s.mem.nextID + 1);
      }
    }
    MaxIDBounds(scan, s.mem.nextID);
    if s.mem.nextID > 0 {
      var last := s.mem.index[s.mem.nextID - 1];
      assert last in s.mem.index && last in scan;
      MatchGenerated(s.mem.nextID);
    }
  }
}
