/** Every event of the store's state machine preserves its invariant, whatever
    the log holds. */
module StoreSteps {
  import opened Words
  import opened Wrappers
  import opened ChunkFile
  import opened Codec
  import opened CodecTheorems
  import opened Wal
  import opened IndexFile
  import opened StoreMachine
  import opened StoreInvariant

  // ---------------------------------------------------------------- small facts

  /** What a reader gets from the chunk of a buffer. */
  lemma WholeChunkContents(dir: Dir, name: string, b: seq<Point>)
    requires name in dir && WholeChunk(dir[name], b)
    ensures var ps := ChunkContents(dir, name);
            && |ps| == |b| && ps[0] == b[0] && (ps == b <==> InDomain(b))
            && (Times(ps) == Times(b) <==> TimesInRange(Times(b)))
            && (Values(ps) == Values(b) <==> ValuesInRange(Values(b)))
  {
    ChunkRoundTrip(b);
  }

  lemma IndexBytesRoundTrip(es: seq<IndexEntry>)
    requires forall e | e in es :: IsChunkName(e.name)
    ensures LoadIndex(FromBytes(ToBytes(IndexText(es)))) == Some(es)
  {
    forall i | 0 <= i < |es| ensures CleanName(es[i].name) {
      assert es[i] in es;
      NameFacts(es[i].name);
    }
    IndexTextAscii(es);
    AsciiBytes(IndexText(es));
    IndexRoundTrip(es);
  }

  lemma AsciiBytes(s: string)
    requires Ascii(s)
    ensures FromBytes(ToBytes(s)) == s
  {
  }

  predicate Ascii(s: string) {
    forall i | 0 <= i < |s| :: s[i] as int < 128
  }

  lemma {:induction false} IndexTextAscii(es: seq<IndexEntry>)
    requires forall e | e in es :: IsChunkName(e.name)
    ensures Ascii(IndexText(es))
  {
    if es != [] {
      IndexTextAscii(es[1..]);
      ChunkNameAscii(es[0].name);
      DigitsAscii(Decimal(es[0].start)); DigitsAscii(Decimal(es[0].end)); DigitsAscii(Decimal(es[0].count));
    }
  }

  lemma DigitsAscii(s: string)
    requires AllDigits(s)
    ensures Ascii(s)
  {
  }

  lemma ChunkNameAscii(name: string)
    requires IsChunkName(name)
    ensures Ascii(name)
  {
    DigitsAscii(name[6..10]);
    assert Ascii("chunk_") && Ascii(".dat");
    assert name == name[..6] + name[6..10] + name[10..];
  }

  /** Consistency looks only at the directory, what its chunks were written from, the
      index and the next id. */
  lemma ConsistentElsewhere(s: State, s': State)
    requires Consistent(s) && s'.dir == s.dir && s'.chunks == s.chunks
    requires s'.mem.index == s.mem.index && s'.mem.nextID == s.mem.nextID
    ensures Consistent(s')
  {
  }

  lemma RunningConsistent(s: State)
    requires Running(s)
    ensures Consistent(s)
  {
  }

  // ---------------------------------------------------------------- steps outside chunks and index

  /** A directory change that touches neither chunks nor index.dat. */
  lemma QuietStep(s: State, dir: Dir)
    requires Consistent(s) && SameChunks(s.dir, dir)
    ensures Consistent(s.(dir := dir))
  {
    hide WholeChunk, MatchChunkName;
    SameChunksKeeps(s.dir, dir, s.mem.index, s.mem.nextID);
  }

  lemma TmpStep(s: State, name: string, bytes: seq<Byte>)
    requires Consistent(s)
    ensures Consistent(s.(dir := s.dir[name + TMP_SUFFIX := bytes]))
    ensures SameChunks(s.dir, s.dir[name + TMP_SUFFIX := bytes])
    ensures WalOf(s.dir[name + TMP_SUFFIX := bytes]) == WalOf(s.dir)
  {
    hide Consistent, MatchChunkName;
    NameFacts(name);
    QuietStep(s, s.dir[name + TMP_SUFFIX := bytes]);
  }

  lemma BeginStep(s: State, ack: Option<Point>)
    requires Consistent(s) && s.mem.buffer != [] && LengthsFit(s.mem.buffer) && s.mem.nextID < MAX_CHUNK_ID
    ensures Running(BeginRotation(s, ack))
  {
    hide ChunkBytes, IndexText, LoadIndex, MatchChunkName, ChunkName, LengthsFit, WholeChunk;
    MatchGenerated(s.mem.nextID + 1);
  }

  /** An append to the log, whole or in part, changes no other file. */
  lemma WalGrows(s: State, bytes: seq<Byte>)
    requires Consistent(s)
    ensures var dir := AppendWal(s.dir, bytes);
            SameChunks(s.dir, dir) && WalOf(dir) == WalOf(s.dir) + bytes && Consistent(s.(dir := dir))
  {
    hide Consistent, MatchChunkName;
    forall name | IsChunkName(name) ensures name != WAL_NAME { NameFacts(name); }
    QuietStep(s, AppendWal(s.dir, bytes));
  }

  lemma LogStep(s: State)
    requires Running(s) && s.pc.Logging? && RotatesSafely(s, Advance, MAX_CHUNK_ID)
    ensures Running(AdvanceStep(s))
  {
    hide ChunkBytes, LengthsFit, Consistent;
    var p := s.pc.p;
    WalGrows(s, Record(p));
    var s' := Buffered(s, p);
    ConsistentElsewhere(s.(dir := s'.dir), s');
    if ShouldRotate(s'.mem.buffer) {
      BeginStep(s', Some(p));
    } else {
      ConsistentElsewhere(s', AdvanceStep(s));
    }
  }

  // ---------------------------------------------------------------- replacing a file

  lemma TmpPhase(s: State)
    requires Running(s) && s.pc.Replacing? && s.pc.stage != Rename
    ensures Running(AdvanceStep(s))
    ensures SameChunks(s.dir, AdvanceStep(s).dir) && WalOf(AdvanceStep(s).dir) == WalOf(s.dir)
  {
    hide ChunkBytes, IndexText, LoadIndex, ReadHeader, Recovered, MatchChunkName, ChunkName, LengthsFit, Record,
         Consistent;
    var Replacing(r, target, stage) := s.pc;
    NameFacts(FinalName(r, target));
    var bytes := if stage == Create then [] else DataOf(r, target);
    TmpStep(s, FinalName(r, target), bytes);
    MatchGenerated(s.mem.nextID);
    ConsistentElsewhere(s.(dir := s.dir[TmpName(r, target) := bytes]), AdvanceStep(s));
  }

  /** Renaming the finished chunk changes no other file anyone reads. */
  lemma ChunkRenamedDir(s: State)
    requires Running(s) && s.pc.Replacing? && s.pc.target == ToChunk && s.pc.stage == Rename
    ensures var name, dir := s.pc.r.entry.name, AdvanceStep(s).dir;
            && IsChunkName(name) && name in dir && dir[name] == s.pc.r.chunk
            && (forall n | (IsChunkName(n) || n == INDEX_NAME) && n != name ::
                  (n in s.dir <==> n in dir) && (n in s.dir ==> dir[n] == s.dir[n]))
            && WalOf(dir) == WalOf(s.dir)
  {
    hide ChunkBytes, IndexText, ReadChunk, Recovered, MatchChunkName, LengthsFit;
    MatchGenerated(s.mem.nextID);
    NameFacts(s.pc.r.entry.name);
  }

  lemma ChunkRename(s: State)
    requires Running(s) && s.pc.Replacing? && s.pc.target == ToChunk && s.pc.stage == Rename
    ensures Running(AdvanceStep(s))
    ensures Kept(AdvanceStep(s)) == Kept(s)
    ensures WalOf(AdvanceStep(s).dir) == WalOf(s.dir) && LoadIndexFile(AdvanceStep(s).dir) == LoadIndexFile(s.dir)
    ensures forall name | IsChunkName(name) && name in AdvanceStep(s).dir :: name in s.dir || name == s.pc.r.entry.name
  {
    hide ChunkBytes, IndexText, LoadIndex, LengthsFit, WalOf, MatchChunkName, ReadHeader, RenameFile;
    ChunkRenamedDir(s);
    var name, dir := s.pc.r.entry.name, AdvanceStep(s).dir;
    NameFacts(name);
    WrittenFrame(s.chunks, AdvanceStep(s).chunks, s.mem.index);
    assert LoadIndexFile(dir) == LoadIndexFile(s.dir);
  }

  /** Publishing index.dat leaves every chunk file and the log alone. */
  lemma IndexRenamedDir(s: State)
    requires Running(s) && s.pc.Replacing? && s.pc.target == ToIndex && s.pc.stage == Rename
    ensures var dir := AdvanceStep(s).dir;
            && INDEX_NAME in dir && dir[INDEX_NAME] == s.pc.r.index && WalOf(dir) == WalOf(s.dir)
            && forall n | IsChunkName(n) :: (n in s.dir <==> n in dir) && (n in s.dir ==> dir[n] == s.dir[n])
  {
    hide MatchChunkName, Consistent, LengthsFit, ChunkBytes, IndexText, ChunkName;
    NameFacts(INDEX_NAME);
    forall n | IsChunkName(n) ensures n != INDEX_NAME && n != INDEX_NAME + TMP_SUFFIX {
      NameFacts(n);
    }
  }

  /** The rest of the state once index.dat is published. */
  lemma IndexPublished(s: State)
    requires Running(s) && s.pc.Replacing? && s.pc.target == ToIndex && s.pc.stage == Rename
    ensures AdvanceStep(s) == s.(dir := AdvanceStep(s).dir, pc := Truncating(s.pc.r.ack),
                                 mem := s.mem.(index := s.mem.index + [s.pc.r.entry], buffer := []))
  {
    hide Consistent, LengthsFit, ChunkBytes, IndexText, ChunkName, RenameFile;
  }

  /** The entry being published names the chunk just written, numbered by nextID. */
  lemma NewEntry(s: State)
    requires Running(s) && s.pc.Replacing? && s.pc.target == ToIndex
    ensures var e := s.pc.r.entry;
            && e.name in s.dir && IsChunkName(e.name) && MatchChunkName(e.name).value <= s.mem.nextID
            && BufferOf(s.chunks, e.name) == s.mem.buffer
            && s.pc.r.index == ToBytes(IndexText(s.mem.index + [e]))
  {
    hide ChunksOk, LengthsFit, ChunkBytes, IndexText, MatchChunkName, ChunkName, ToBytes, IndexBacked;
    MatchGenerated(s.mem.nextID);
  }

  lemma IndexRename(s: State)
    requires Running(s) && s.pc.Replacing? && s.pc.target == ToIndex && s.pc.stage == Rename
    ensures Running(AdvanceStep(s))
    ensures Kept(AdvanceStep(s)) == Kept(s) && AdvanceStep(s).mem.buffer == []
    ensures WalOf(AdvanceStep(s).dir) == WalOf(s.dir)
            && LoadIndexFile(AdvanceStep(s).dir) == Some(AdvanceStep(s).mem.index)
  {
    hide AdvanceStep, IndexText, LoadIndex, MatchChunkName, Written, WholeChunk, WalOf, ToBytes, FromBytes, BufferOf,
         PcOk, IndexBacked;
    IndexRenamedDir(s); IndexPublished(s); NewEntry(s);
    WrittenAppend(s.chunks, s.mem.index, s.pc.r.entry);
    var s', es := AdvanceStep(s), s.mem.index + [s.pc.r.entry];
    IndexBytesRoundTrip(es);
    assert LoadIndexFile(s'.dir) == Some(es);
    assert Kept(s') == Kept(s) + [];
    PublishedRunning(s, s', es);
  }

  lemma PublishedRunning(s: State, s': State, es: seq<IndexEntry>)
    requires Consistent(s) && s'.mem.index == es && s'.mem.nextID == s.mem.nextID && s'.chunks == s.chunks
    requires s'.pc.Truncating? && s'.mem.buffer == [] && LoadIndexFile(s'.dir) == Some(es)
    requires forall n | IsChunkName(n) :: (n in s.dir <==> n in s'.dir) && (n in s.dir ==> s'.dir[n] == s.dir[n])
    requires IndexOk(s.dir, es, s.mem.nextID)
    ensures Running(s')
  {
    hide MatchChunkName, WholeChunk, LoadIndexFile;
  }

  lemma TruncatedDir(dir: Dir)
    ensures SameChunks(dir, TruncateWal(dir)) && WalOf(TruncateWal(dir)) == []
  {
    assert forall name | IsChunkName(name) :: name != WAL_NAME by {
      forall name | IsChunkName(name) ensures name != WAL_NAME { NameFacts(name); }
    }
  }

  lemma TruncateStep(s: State)
    requires Running(s) && s.pc.Truncating?
    ensures Running(AdvanceStep(s))
    ensures SameChunks(s.dir, AdvanceStep(s).dir) && WalOf(AdvanceStep(s).dir) == []
  {
    hide Committed;
    var dir := TruncateWal(s.dir);
    TruncatedDir(s.dir);
    QuietStep(s, dir);
    ConsistentElsewhere(s.(dir := dir), AdvanceStep(s));
  }

  // ---------------------------------------------------------------- failures and crashes

  /** Whatever part of the pending operation took effect, chunks and index agree,
      and only a log append touches the log. */
  lemma PartialStep(s: State, n: nat)
    requires Running(s)
    ensures Consistent(s.(dir := Partial(s, n))) && SameChunks(s.dir, Partial(s, n))
    ensures WalOf(Partial(s, n)) == WalOf(s.dir) + if s.pc.Logging? && n <= RECORD_SIZE then Record(s.pc.p)[..n] else []
  {
    hide ChunkBytes, IndexText, MatchChunkName, ChunkName, LengthsFit, Consistent, Record, WalOf;
    assert WalOf(s.dir) + [] == WalOf(s.dir);
    match s.pc
    case Logging(p) =>
      if n <= RECORD_SIZE { WalGrows(s, Record(p)[..n]); }
    case Replacing(r, target, Write) =>
      NameFacts(FinalName(r, target));
      if n <= |DataOf(r, target)| {
        TmpStep(s, FinalName(r, target), DataOf(r, target)[..n]);
      }
    case _ =>
      assert s.(dir := s.dir) == s;
  }

  lemma FailedStep(s: State, n: nat)
    requires Running(s)
    ensures Running(FailStep(s, n))
  {
    hide Consistent, Partial;
    PartialStep(s, n);
    if s.pc.Truncating? || s.pc.Idle? || s.pc.Down? {
      ConsistentElsewhere(s, FailStep(s, n));
    } else {
      ConsistentElsewhere(s.(dir := Partial(s, n)), FailStep(s, n));
    }
  }

  lemma CrashStep(s: State, n: nat)
    requires Running(s) && !s.pc.Down?
    ensures Openable(Next(s, Crash(n)))
  {
    hide Partial, WholeChunk, LoadIndexFile;
    PartialStep(s, n);
    forall es | Rebuilt(Partial(s, n), es) ensures IndexOk(Partial(s, n), es, MAX_CHUNK_ID) {
      RebuiltCovers(Partial(s, n), s.chunks, s.mem.index, s.mem.nextID, es);
    }
  }

  // ---------------------------------------------------------------- opening

  lemma {:induction false} MaxIDBounds(es: seq<IndexEntry>, bound: nat)
    requires forall e | e in es :: IsChunkName(e.name) && MatchChunkName(e.name).value <= bound
    ensures MaxID(es) <= bound
    ensures forall e | e in es :: IsChunkName(e.name) && MatchChunkName(e.name).value <= MaxID(es)
  {
    hide MatchChunkName;
    if es != [] {
      MaxIDBounds(es[1..], bound);
      assert es == [es[0]] + es[1..];
    }
  }

  /** The largest id is that of some entry, and no entry has a larger one. */
  lemma {:induction false} MaxIDExactly(es: seq<IndexEntry>)
    ensures forall e | e in es && MatchChunkName(e.name).Some? :: MatchChunkName(e.name).value <= MaxID(es)
    ensures MaxID(es) == 0 || exists e | e in es :: MatchChunkName(e.name) == Some(MaxID(es))
  {
    hide MatchChunkName;
    if es != [] {
      MaxIDExactly(es[1..]);
      assert es == [es[0]] + es[1..];
      assert forall e :: e in es <==> e == es[0] || e in es[1..];
    }
  }

  /** Opening rewrites at most index.dat, with what the scan found. */
  lemma RewrittenDir(dir: Dir, scan: seq<IndexEntry>, rewrite: Rewrite)
    requires forall e | e in scan :: IsChunkName(e.name)
    ensures var dir' := RewriteIndex(dir, scan, rewrite);
            && WalOf(dir') == WalOf(dir)
            && (forall name | IsChunkName(name) ::
               (name in dir <==> name in dir') && (name in dir ==> dir[name] == dir'[name]))
            && (rewrite.Replaced? ==> LoadIndexFile(dir') == Some(scan))
            && (!rewrite.Replaced? ==> SameChunks(dir, dir'))
  {
    hide IndexText, LoadIndex;
    NameFacts(INDEX_NAME);
    forall name | IsChunkName(name) ensures name != INDEX_NAME && name != INDEX_NAME + TMP_SUFFIX {
      NameFacts(name);
    }
    IndexBytesRoundTrip(scan);
  }

  lemma RebuiltSame(dir: Dir, dir': Dir, es: seq<IndexEntry>)
    requires SameChunks(dir, dir') && Rebuilt(dir', es)
    ensures Rebuilt(dir, es)
  {
    hide LoadIndex, MatchChunkName, ReadHeader, FromBytes;
    if LoadIndexFile(dir).None? {
      forall name ensures ScanEntry(dir, name) == ScanEntry(dir', name) {
        assert IsChunkName(name) ==> (name in dir <==> name in dir');
      }
    }
  }

  /** The directory opening leaves: the same chunks and the same log. */
  lemma OpenedDir(s: State, entries: seq<IndexEntry>, rewrite: Rewrite) returns (dir: Dir)
    requires ChunksOk(s.dir, s.chunks) && Rebuilt(s.dir, entries) && IndexOk(s.dir, entries, MAX_CHUNK_ID)
    ensures dir == if LoadIndexFile(s.dir).Some? then s.dir else RewriteIndex(s.dir, entries, rewrite)
    ensures ChunksOk(dir, s.chunks) && WalOf(dir) == WalOf(s.dir)
    ensures IndexOk(dir, entries, MAX_CHUNK_ID) && IndexBacked(dir, entries)
    ensures Committed(dir, entries) == Committed(s.dir, entries)
    ensures forall name | IsChunkName(name) ::
            (name in s.dir <==> name in dir) && (name in s.dir ==> s.dir[name] == dir[name])
  {
    hide ReadChunk, WholeChunk;
    dir := if LoadIndexFile(s.dir).Some? then s.dir else RewriteIndex(s.dir, entries, rewrite);
    OpenedIndexBacked(s.dir, dir, entries, rewrite);
    if LoadIndexFile(s.dir).None? {
      RewrittenDir(s.dir, entries, rewrite);
    }
    CommittedFrame(s.dir, dir, entries);
  }

  lemma OpenedUp(s: State, entries: seq<IndexEntry>, rewrite: Rewrite)
    requires Openable(s) && Rebuilt(s.dir, entries)
    ensures Running(OpenStep(s, entries, rewrite, true))
  {
    hide OpenStep, Recovered, WalOf, Committed, WholeChunk, MatchChunkName, IndexBacked, Rebuilt;
    var dir := OpenedDir(s, entries, rewrite);
    MaxIDBounds(entries, MAX_CHUNK_ID);
    OpenedState(s, entries, rewrite);
    var s' := OpenStep(s, entries, rewrite, true);
    assert s'.dir == dir && s'.mem.index == entries && s'.mem.buffer == Recovered(WalOf(dir));
    assert IndexOk(dir, entries, s'.mem.nextID);
  }

  /** The state an opening with these entries ends in. */
  lemma OpenedState(s: State, entries: seq<IndexEntry>, rewrite: Rewrite)
    requires Rebuilt(s.dir, entries)
    ensures var dir := if LoadIndexFile(s.dir).Some? then s.dir else RewriteIndex(s.dir, entries, rewrite);
            var mem := Mem(Recovered(WalOf(s.dir)), MaxID(entries) % TWO_TO_32, entries);
            OpenStep(s, entries, rewrite, true) == s.(dir := dir, mem := mem, pc := Idle)
  {
    hide RewriteIndex, MaxID, IsScan, LoadIndex;
  }

  lemma LoadedEntries(dir: Dir, entries: seq<IndexEntry>)
    requires Rebuilt(dir, entries)
    ensures LoadIndexFile(dir).Some? ==> LoadIndexFile(dir).value == entries
  {
  }

  /** Opening that dies on the way leaves a directory just as openable. */
  lemma OpenedDown(s: State, entries: seq<IndexEntry>, rewrite: Rewrite)
    requires Openable(s) && s.pc.Down? && Rebuilt(s.dir, entries)
    ensures Openable(OpenStep(s, entries, rewrite, false))
  {
    hide ChunkBytes, LoadIndex, ReadChunk, LengthsFit;
    var dir := OpenedDir(s, entries, rewrite);
    LoadedEntries(s.dir, entries);
    forall es | Rebuilt(dir, es) ensures IndexOk(dir, es, MAX_CHUNK_ID) {
      RebuiltAgain(s.dir, dir, entries, rewrite, es);
    }
  }

  lemma RebuiltAgain(dir: Dir, dir': Dir, entries: seq<IndexEntry>, rewrite: Rewrite, es: seq<IndexEntry>)
    requires dir' == if LoadIndexFile(dir).Some? then dir else RewriteIndex(dir, entries, rewrite)
    requires Rebuilt(dir, entries) && Rebuilt(dir', es)
    requires forall fs | Rebuilt(dir, fs) :: IndexOk(dir, fs, MAX_CHUNK_ID)
    ensures Rebuilt(dir, es) && Committed(dir', es) == Committed(dir, es) && IndexOk(dir', es, MAX_CHUNK_ID)
  {
    hide ReadChunk;
    if LoadIndexFile(dir).None? {
      RewrittenDir(dir, entries, rewrite);
      if !rewrite.Replaced? {
        RebuiltSame(dir, dir', es);
      }
      CommittedFrame(dir, dir', es);
    }
  }

  lemma OpenedStep(s: State, scan: seq<IndexEntry>, rewrite: Rewrite, up: bool)
    requires Openable(s) && s.pc.Down?
    requires Rebuilt(s.dir, if LoadIndexFile(s.dir).Some? then LoadIndexFile(s.dir).value else scan)
    ensures Inv(OpenStep(s, scan, rewrite, up))
  {
    hide Openable, Running, Rebuilt, RewriteIndex, LoadIndexFile;
    var entries := if LoadIndexFile(s.dir).Some? then LoadIndexFile(s.dir).value else scan;
    if up {
      OpenedUp(s, entries, rewrite);
    } else {
      OpenedDown(s, entries, rewrite);
    }
  }

  lemma OpenedIndexBacked(dir: Dir, dir': Dir, entries: seq<IndexEntry>, rewrite: Rewrite)
    requires Rebuilt(dir, entries) && IndexOk(dir, entries, MAX_CHUNK_ID)
    requires dir' == if LoadIndexFile(dir).Some? then dir else RewriteIndex(dir, entries, rewrite)
    ensures IndexBacked(dir', entries)
  {
    if LoadIndexFile(dir).None? {
      RewrittenDir(dir, entries, rewrite);
    }
  }

  // ---------------------------------------------------------------- every event

  lemma FreshInv()
    ensures Inv(FRESH)
  {
  }

  /** The invariant survives every event, whatever becomes of the log. */
  lemma InvStep(s: State, e: Event)
    requires Inv(s) && RotatesSafely(s, e, MAX_CHUNK_ID)
    ensures Inv(Next(s, e))
  {
    hide Running, Openable, AdvanceStep, OpenStep, BeginRotation, Rebuilt;
    match e
    case Submit(p) =>
      if s.pc.Idle? { SubmitStep(s, p); }
    case Flush =>
      if s.pc.Idle? && s.mem.buffer != [] { FlushStep(s); }
    case Advance =>
      if s.pc.Down? { AdvanceKinds(s); } else { AdvancedStep(s); }
    case Fail(n) =>
      if s.pc.Down? { AdvanceKinds(s); } else { FailedStep(s, n); FailStaysUp(s, n); }
    case Crash(n) =>
      if !s.pc.Down? { CrashStep(s, n); }
    case Open(scan, rewrite, up) =>
      if s.pc.Down? && Rebuilt(s.dir, if LoadIndexFile(s.dir).Some? then LoadIndexFile(s.dir).value else scan) {
        OpenedStep(s, scan, rewrite, up);
      }
  }

  lemma SubmitStep(s: State, p: Point)
    requires Running(s) && s.pc.Idle?
    ensures Running(s.(pc := Logging(p), submitted := s.submitted + [p]))
  {
    hide ChunksOk, IndexOk, IndexBacked;
  }

  lemma FlushStep(s: State)
    requires Running(s) && s.pc.Idle? && s.mem.buffer != [] && RotatesSafely(s, Flush, MAX_CHUNK_ID)
    ensures Running(BeginRotation(s, None)) && !BeginRotation(s, None).pc.Down?
  {
    hide Consistent, LengthsFit, ChunkBytes, IndexText, ChunkName;
    BeginStep(s, None);
  }

  lemma AdvanceKinds(s: State)
    requires s.pc.Down?
    ensures AdvanceStep(s) == s && forall n :: FailStep(s, n) == s
  {
  }

  lemma FailStaysUp(s: State, n: nat)
    requires !s.pc.Down?
    ensures !FailStep(s, n).pc.Down?
  {
  }

  lemma AdvancedStep(s: State)
    requires Running(s) && !s.pc.Down? && RotatesSafely(s, Advance, MAX_CHUNK_ID)
    ensures Running(AdvanceStep(s)) && !AdvanceStep(s).pc.Down?
  {
    hide Consistent, LengthsFit, ChunkBytes, ChunkName;
    match s.pc
    case Idle =>
    case Logging(_) => LogStep(s);
    case Replacing(_, ToChunk, Rename) => ChunkRename(s);
    case Replacing(_, ToIndex, Rename) => IndexRename(s);
    case Replacing(_, _, _) => TmpPhase(s);
    case Truncating(_) => TruncateStep(s);
  }

  /** Every state of every run with safe rotations satisfies the invariant. */
  lemma {:induction false} InvRun(evs: seq<Event>)
    requires RotatesFairly(evs, MAX_CHUNK_ID)
    ensures Inv(Run(FRESH, evs))
  {
    hide Inv, Next, RotatesSafely;
    if evs == [] {
      FreshInv();
    } else {
      InvRun(evs[..|evs| - 1]);
      InvStep(Run(FRESH, evs[..|evs| - 1]), evs[|evs| - 1]);
    }
  }
}
