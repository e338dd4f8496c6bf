/** The log's part of the invariant: together with the chunks it has every logged
    point, and only submitted ones, as long as nothing is appended behind a torn
    record. */
module StoreDurability {
  import opened Words
  import opened Wrappers
  import opened ChunkFile
  import opened Wal
  import opened IndexFile
  import opened StoreMachine
  import opened StoreInvariant
  import opened StoreSteps

  // ---------------------------------------------------------------- the invariant

  /** Everything in the log and everything chunks were written from was submitted. */
  ghost predicate Sourced(dir: Dir, chunks: Chunks, submitted: seq<Point>) {
    && AllIn(Recovered(WalOf(dir)), submitted)
    && forall name | name in chunks :: AllIn(chunks[name], submitted)
  }

  /** The point whose acknowledgement is still outstanding after its log append. */
  function Pending(pc: Pc): seq<Point> {
    match pc
    case Replacing(r, _, _) => AckOf(r.ack)
    case Truncating(ack) => AckOf(ack)
    case _ => []
  }

  ghost predicate LogBacked(s: State) {
    && Sourced(s.dir, s.chunks, s.submitted) && (s.pc.Logging? ==> s.pc.p in s.submitted)
    && multiset(s.logged) <= multiset(Kept(s))
    && multiset(s.mem.buffer) <= multiset(Recovered(WalOf(s.dir)))
    && multiset(s.acked) + multiset(Pending(s.pc)) <= multiset(s.logged)
  }

  /** With the process gone, whatever opening makes of the directory has every
      logged point. */
  ghost predicate Recoverable(s: State) {
    && Sourced(s.dir, s.chunks, s.submitted) && multiset(s.acked) <= multiset(s.logged)
    && forall es | Rebuilt(s.dir, es) ::
         multiset(s.logged) <= multiset(Written(s.chunks, es)) + multiset(Recovered(WalOf(s.dir)))
  }

  ghost predicate Durable(s: State) {
    if s.pc.Down? then Recoverable(s) else LogBacked(s)
  }

  // ---------------------------------------------------------------- the log

  /** A whole record adds its point to what replay returns, a part of one nothing. */
  lemma PartialLog(s: State, n: nat)
    requires Running(s) && (Appends(s, Crash(n)) ==> |WalOf(s.dir)| % RECORD_SIZE == 0)
    ensures Recovered(WalOf(Partial(s, n))) == Recovered(WalOf(s.dir)) + Completed(s, n)
  {
    hide Running, Partial, WalOf, Recovered, Record;
    PartialStep(s, n);
    var log := WalOf(s.dir);
    assert log + [] == log && Recovered(log) + [] == Recovered(log);
    if s.pc.Logging? && n <= RECORD_SIZE {
      var bytes := Record(s.pc.p)[..n];
      if n == 0 {
        assert bytes == [];
      } else if n == RECORD_SIZE {
        assert bytes == Record(s.pc.p);
        AppendAligned(log, s.pc.p);
      } else {
        TornAppendDropped(log, bytes);
      }
    }
  }

  lemma BufferSubmitted(s: State)
    requires LogBacked(s)
    ensures AllIn(s.mem.buffer, s.submitted)
  {
    hide Recovered, WalOf;
    forall p | p in s.mem.buffer ensures p in s.submitted {
      assert p in multiset(s.mem.buffer);
      assert p in Recovered(WalOf(s.dir));
    }
  }

  /** A step that touches neither chunks nor index nor buffer, and takes nothing
      out of the log. */
  lemma QuietBacked(s: State, s': State)
    requires LogBacked(s)
    requires s'.mem.index == s.mem.index && s'.mem.buffer == s.mem.buffer && s'.chunks == s.chunks
    requires s'.logged == s.logged && s'.submitted == s.submitted && (s'.pc.Logging? ==> s'.pc.p in s'.submitted)
    requires multiset(Recovered(WalOf(s.dir))) <= multiset(Recovered(WalOf(s'.dir)))
    requires AllIn(Recovered(WalOf(s'.dir)), s'.submitted)
    requires multiset(s'.acked) + multiset(Pending(s'.pc)) <= multiset(s'.logged)
    ensures LogBacked(s')
  {
    hide Recovered, WalOf, Written, ChunksOk;
  }

  // ---------------------------------------------------------------- steps of a running store

  lemma SubmitBacked(s: State, p: Point)
    requires LogBacked(s) && s.pc.Idle?
    ensures LogBacked(s.(pc := Logging(p), submitted := s.submitted + [p]))
  {
    hide Recovered, WalOf, Written;
    assert Kept(s.(pc := Logging(p), submitted := s.submitted + [p])) == Kept(s);
  }

  lemma BeginBacked(s: State, ack: Option<Point>)
    requires LogBacked(s) && s.mem.buffer != []
    requires multiset(s.acked) + multiset(AckOf(ack)) <= multiset(s.logged)
    ensures LogBacked(BeginRotation(s, ack))
  {
    hide Recovered, WalOf, Written, Sourced, ChunkBytes, IndexText;
    assert Kept(BeginRotation(s, ack)) == Kept(s);
  }

  lemma LoggedBacked(s: State)
    requires Running(s) && LogBacked(s) && s.pc.Logging? && |WalOf(s.dir)| % RECORD_SIZE == 0
    ensures LogBacked(AdvanceStep(s))
  {
    hide LogBacked, WalOf, AppendWal, Record, BeginRotation, ShouldRotate, Running;
    var p := s.pc.p;
    var s' := Buffered(s, p);
    LoggedPoint(s, s');
    if ShouldRotate(s'.mem.buffer) {
      BeginBacked(s', Some(p));
    } else {
      AckBacked(s', p);
    }
  }

  lemma AckBacked(s: State, p: Point)
    requires LogBacked(s) && multiset(s.acked) + multiset([p]) <= multiset(s.logged)
    ensures LogBacked(s.(pc := Idle, acked := s.acked + [p]))
  {
    hide Recovered, WalOf, Written, Sourced;
    assert Kept(s.(pc := Idle, acked := s.acked + [p])) == Kept(s);
  }

  /** The state once the point is logged and buffered. */
  lemma LoggedPoint(s: State, s': State)
    requires Running(s) && LogBacked(s) && s.pc.Logging? && |WalOf(s.dir)| % RECORD_SIZE == 0
    requires var p := s.pc.p;
             s' == Buffered(s, p)
    ensures Sourced(s'.dir, s'.chunks, s'.submitted) && multiset(s'.logged) <= multiset(Kept(s'))
    ensures multiset(s'.mem.buffer) <= multiset(Recovered(WalOf(s'.dir)))
    ensures multiset(s'.acked) + multiset([s.pc.p]) <= multiset(s'.logged) && LogBacked(s')
  {
    hide Recovered, WalOf, AppendWal, Written, Record, ChunksOk;
    WalGrows(s, Record(s.pc.p));
    AppendAligned(WalOf(s.dir), s.pc.p);
    assert Kept(s') == Kept(s) + [s.pc.p];
  }

  lemma TmpBacked(s: State)
    requires Running(s) && LogBacked(s) && s.pc.Replacing? && s.pc.stage != Rename
    ensures LogBacked(AdvanceStep(s))
  {
    hide LogBacked, Running, SameChunks, TmpName, DataOf, Recovered, WalOf;
    TmpPhase(s);
    BackedParts(s);
    QuietBacked(s, AdvanceStep(s));
  }

  lemma BackedParts(s: State)
    requires LogBacked(s)
    ensures AllIn(Recovered(WalOf(s.dir)), s.submitted)
    ensures multiset(s.acked) + multiset(Pending(s.pc)) <= multiset(s.logged)
  {
  }

  lemma ChunkRenameBacked(s: State)
    requires Running(s) && LogBacked(s) && s.pc.Replacing? && s.pc.target == ToChunk && s.pc.stage == Rename
    ensures LogBacked(AdvanceStep(s))
  {
    hide Recovered, WalOf, Running, Kept, AllIn, TmpName, FinalName, RenameFile;
    ChunkRename(s);
    BufferSubmitted(s);
  }

  lemma IndexRenameBacked(s: State)
    requires Running(s) && LogBacked(s) && s.pc.Replacing? && s.pc.target == ToIndex && s.pc.stage == Rename
    ensures LogBacked(AdvanceStep(s))
  {
    hide Recovered, WalOf, Written, Consistent, ChunkBytes, LengthsFit, LoadIndexFile, IndexText;
    var s' := AdvanceStep(s);
    IndexRename(s);
    assert Kept(s') == Kept(s) + [];
  }

  lemma TruncatedBacked(s: State)
    requires Running(s) && LogBacked(s) && s.pc.Truncating?
    ensures LogBacked(AdvanceStep(s))
  {
    hide Recovered, WalOf, Written, ChunksOk, TruncateWal;
    var s' := AdvanceStep(s);
    TruncateStep(s);
    NothingRecovered();
    assert multiset(s.acked + AckOf(s.pc.ack)) == multiset(s.acked) + multiset(AckOf(s.pc.ack));
  }

  lemma NothingRecovered()
    ensures Recovered([]) == []
  {
  }

  lemma AdvanceBacked(s: State)
    requires Running(s) && LogBacked(s) && !s.pc.Down? && (s.pc.Logging? ==> |WalOf(s.dir)| % RECORD_SIZE == 0)
    ensures LogBacked(AdvanceStep(s))
  {
    hide Running, LogBacked;
    match s.pc
    case Idle =>
    case Logging(_) => LoggedBacked(s);
    case Replacing(_, ToChunk, Rename) => ChunkRenameBacked(s);
    case Replacing(_, ToIndex, Rename) => IndexRenameBacked(s);
    case Replacing(_, _, _) => TmpBacked(s);
    case Truncating(_) => TruncatedBacked(s);
  }

  // ---------------------------------------------------------------- failures and crashes

  lemma PartialSourced(s: State, n: nat)
    requires Running(s) && LogBacked(s) && (Appends(s, Crash(n)) ==> |WalOf(s.dir)| % RECORD_SIZE == 0)
    ensures SameChunks(s.dir, Partial(s, n)) && AllIn(Recovered(WalOf(Partial(s, n))), s.submitted)
    ensures multiset(Recovered(WalOf(s.dir))) <= multiset(Recovered(WalOf(Partial(s, n))))
  {
    hide Running, Partial, WalOf, Recovered, Written, SameChunks;
    PartialStep(s, n);
    PartialLog(s, n);
  }

  lemma FailBacked(s: State, n: nat)
    requires Running(s) && LogBacked(s) && !s.pc.Down?
    requires Appends(s, Fail(n)) ==> |WalOf(s.dir)| % RECORD_SIZE == 0
    ensures LogBacked(FailStep(s, n))
  {
    hide Running, LogBacked, Partial, WalOf, Recovered, SameChunks;
    PartialSourced(s, n);
    BackedParts(s);
    SameChunksRefl(s.dir);
    assert multiset(s.acked + Pending(s.pc)) == multiset(s.acked) + multiset(Pending(s.pc));
    QuietBacked(s, FailStep(s, n));
  }

  lemma SameChunksRefl(dir: Dir)
    ensures SameChunks(dir, dir)
  {
  }

  lemma CrashRecoverable(s: State, n: nat)
    requires Running(s) && LogBacked(s) && !s.pc.Down?
    requires Appends(s, Crash(n)) ==> |WalOf(s.dir)| % RECORD_SIZE == 0
    ensures Recoverable(Next(s, Crash(n)))
  {
    hide Partial, WalOf, Recovered, Written, ChunksOk, LoadIndexFile, PcOk;
    var dir := Partial(s, n);
    PartialSourced(s, n);
    PartialStep(s, n);
    forall es | Rebuilt(dir, es)
      ensures multiset(s.logged) <= multiset(Written(s.chunks, es)) + multiset(Recovered(WalOf(dir)))
    {
      RebuiltCovers(dir, s.chunks, s.mem.index, s.mem.nextID, es);
    }
  }

  // ---------------------------------------------------------------- opening

  lemma OpenedBacked(s: State, entries: seq<IndexEntry>, rewrite: Rewrite)
    requires Openable(s) && Recoverable(s) && s.pc.Down? && Rebuilt(s.dir, entries)
    ensures LogBacked(OpenStep(s, entries, rewrite, true))
  {
    hide OpenStep, Recovered, WalOf, Written, WholeChunk, Rebuilt, MaxID, LoadIndexFile;
    var dir := OpenedDir(s, entries, rewrite);
    OpenedState(s, entries, rewrite);
  }

  lemma DiedRecoverable(s: State, entries: seq<IndexEntry>, rewrite: Rewrite)
    requires Openable(s) && Recoverable(s) && s.pc.Down? && Rebuilt(s.dir, entries)
    ensures Recoverable(OpenStep(s, entries, rewrite, false))
  {
    hide Recovered, WalOf, Written, WholeChunk, MaxID, LoadIndex;
    var dir := OpenedDir(s, entries, rewrite);
    LoadedEntries(s.dir, entries);
    forall es | Rebuilt(dir, es)
      ensures multiset(s.logged) <= multiset(Written(s.chunks, es)) + multiset(Recovered(WalOf(dir)))
    {
      RebuiltAgain(s.dir, dir, entries, rewrite, es);
    }
  }

  lemma OpenedDurable(s: State, scan: seq<IndexEntry>, rewrite: Rewrite, up: bool)
    requires Openable(s) && Recoverable(s) && s.pc.Down?
    requires Rebuilt(s.dir, if LoadIndexFile(s.dir).Some? then LoadIndexFile(s.dir).value else scan)
    ensures Durable(OpenStep(s, scan, rewrite, up))
  {
    hide Openable, Recoverable, LogBacked, Rebuilt, RewriteIndex, LoadIndexFile;
    var entries := if LoadIndexFile(s.dir).Some? then LoadIndexFile(s.dir).value else scan;
    if up {
      OpenedBacked(s, entries, rewrite);
    } else {
      DiedRecoverable(s, entries, rewrite);
    }
  }

  // ---------------------------------------------------------------- every event

  lemma DurableStep(s: State, e: Event)
    requires Inv(s) && Durable(s) && (Appends(s, e) ==> |WalOf(s.dir)| % RECORD_SIZE == 0)
    requires RotatesSafely(s, e, MAX_CHUNK_ID)
    ensures Durable(Next(s, e))
  {
    hide Running, Openable, Recoverable, LogBacked, AdvanceStep, OpenStep, BeginRotation, Rebuilt, Partial,
         RotatesSafely;
    match e
    case Submit(p) =>
      if s.pc.Idle? { SubmitBacked(s, p); }
    case Flush =>
      if s.pc.Idle? && s.mem.buffer != [] { BackedParts(s); BeginBacked(s, None); BeginStaysUp(s); }
    case Advance =>
      if s.pc.Down? { AdvanceKinds(s); } else { AdvanceBacked(s); AdvanceStaysUp(s); }
    case Fail(n) =>
      if s.pc.Down? { AdvanceKinds(s); } else { FailBacked(s, n); FailStaysUp(s, n); }
    case Crash(n) =>
      if !s.pc.Down? { CrashRecoverable(s, n); }
    case Open(scan, rewrite, up) =>
      if s.pc.Down? && Rebuilt(s.dir, if LoadIndexFile(s.dir).Some? then LoadIndexFile(s.dir).value else scan) {
        OpenedDurable(s, scan, rewrite, up);
      }
  }

  lemma BeginStaysUp(s: State)
    requires s.mem.buffer != []
    ensures !BeginRotation(s, None).pc.Down?
  {
  }

  lemma AdvanceStaysUp(s: State)
    ensures !s.pc.Down? ==> !AdvanceStep(s).pc.Down?
  {
  }

  lemma {:induction false} DurableRun(evs: seq<Event>)
    requires RotatesFairly(evs, MAX_CHUNK_ID) && AppendsFairly(evs)
    ensures Durable(Run(FRESH, evs))
  {
    hide Durable, Inv, Next, RotatesSafely, Appends;
    if evs == [] {
      FreshDurable();
    } else {
      var before := evs[..|evs| - 1];
      DurableRun(before);
      InvRun(before);
      DurableStep(Run(FRESH, before), evs[|evs| - 1]);
    }
  }

  lemma FreshDurable()
    ensures Durable(FRESH)
  {
    assert Recovered([]) == [];
  }
}
