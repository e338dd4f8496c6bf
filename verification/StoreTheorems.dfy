/** What the store promises over whole runs: nothing acknowledged is lost,
    nothing is invented, points are doubled only in two crash windows, and
    without crashes the store is the sequence of its writes. Each is proved of the
    points the store holds; readers see exactly these if and only if the indexed
    chunks were written from buffers in the codec's domain. */
module StoreTheorems {
  import opened Words
  import opened Wrappers
  import opened Codec
  import opened ChunkFile
  import opened CodecTheorems
  import opened Wal
  import opened IndexFile
  import opened StoreMachine
  import opened StoreInvariant
  import opened StoreSteps
  import opened StoreDurability
  import opened Subsequences

  // ---------------------------------------------------------------- held and visible

  /** Every indexed chunk was written from a buffer whose timestamps are in range. */
  ghost predicate TimesLossless(s: State) {
    forall e | e in s.mem.index :: TimesInRange(Times(BufferOf(s.chunks, e.name)))
  }

  ghost predicate ValuesLossless(s: State) {
    forall e | e in s.mem.index :: ValuesInRange(Values(BufferOf(s.chunks, e.name)))
  }

  /** What readers get from indexed chunks and what these were written from: as many
      points, the same points, times or values exactly as the codec restores them. */
  lemma {:induction false} ReadBack(dir: Dir, chunks: Chunks, es: seq<IndexEntry>)
    requires ChunksOk(dir, chunks) && IndexOk(dir, es, MAX_CHUNK_ID)
    ensures var ps, qs := Committed(dir, es), Written(chunks, es);
            && |ps| == |qs|
            && (ps == qs <==> forall e | e in es :: InDomain(BufferOf(chunks, e.name)))
            && (Times(ps) == Times(qs) <==> forall e | e in es :: TimesInRange(Times(BufferOf(chunks, e.name))))
            && (Values(ps) == Values(qs) <==> forall e | e in es :: ValuesInRange(Values(BufferOf(chunks, e.name))))
  {
    hide InDomain, TimesInRange, ValuesInRange, ChunkContents, MatchChunkName, LengthsFit, ChunkBytes, BufferOf;
    if es != [] {
      var init, e := es[..|es| - 1], es[|es| - 1];
      assert es == init + [e] && e in es;
      ReadBack(dir, chunks, init);
      var b := BufferOf(chunks, e.name);
      assert WholeChunk(dir[e.name], b);
      WholeChunkContents(dir, e.name, b);
      PiecesEqual(Committed(dir, init), ChunkContents(dir, e.name), Written(chunks, init), b);
    }
  }

  lemma PiecesEqual(ps: seq<Point>, p: seq<Point>, qs: seq<Point>, q: seq<Point>)
    requires |ps| == |qs| && |p| == |q|
    ensures ps + p == qs + q <==> ps == qs && p == q
    ensures Times(ps + p) == Times(qs + q) <==> Times(ps) == Times(qs) && Times(p) == Times(q)
    ensures Values(ps + p) == Values(qs + q) <==> Values(ps) == Values(qs) && Values(p) == Values(q)
  {
    hide Times, Values;
    ConcatEqual(ps, p, qs, q);
    TimesConcat(ps, p); TimesConcat(qs, q); ConcatEqual(Times(ps), Times(p), Times(qs), Times(q));
    ConcatEqual(Values(ps), Values(p), Values(qs), Values(q));
  }

  lemma ConcatEqual<T>(a: seq<T>, b: seq<T>, c: seq<T>, d: seq<T>)
    requires |a| == |c|
    ensures a + b == c + d <==> a == c && b == d
  {
    assert (a + b)[..|a|] == a && (a + b)[|a|..] == b && (c + d)[..|a|] == c && (c + d)[|a|..] == d;
  }

  lemma TimesConcat(ps: seq<Point>, qs: seq<Point>)
    ensures Times(ps + qs) == Times(ps) + Times(qs) && Values(ps + qs) == Values(ps) + Values(qs)
  {
  }

  /** What the store shows against what it holds. */
  lemma VisibleKept(s: State)
    requires Consistent(s)
    ensures |Visible(s)| == |Kept(s)| && (Visible(s) == Kept(s) <==> Lossless(s))
    ensures Times(Visible(s)) == Times(Kept(s)) <==> TimesLossless(s)
    ensures Values(Visible(s)) == Values(Kept(s)) <==> ValuesLossless(s)
  {
    hide InDomain, TimesInRange, ValuesInRange, Committed, Written, ChunksOk, BufferOf;
    IndexBounded(s);
    ReadBack(s.dir, s.chunks, s.mem.index);
    PiecesEqual(Committed(s.dir, s.mem.index), s.mem.buffer, Written(s.chunks, s.mem.index), s.mem.buffer);
  }

  lemma IndexBounded(s: State)
    requires Consistent(s)
    ensures IndexOk(s.dir, s.mem.index, MAX_CHUNK_ID)
  {
  }

  /** If every rotation starts with a buffer in the codec's domain, every chunk was
      written from one. */
  ghost predicate AllInDomain(s: State) {
    (s.pc.Replacing? ==> InDomain(s.mem.buffer)) && forall name | name in s.chunks :: InDomain(s.chunks[name])
  }

  lemma AllInDomainStep(s: State, e: Event)
    requires AllInDomain(s) && RotatesInDomain(s, e)
    ensures AllInDomain(Next(s, e))
  {
    hide InDomain, ShouldRotate, Record, Rebuilt, Partial, RewriteIndex, LoadIndexFile, ChunkBytes, IndexText, MaxID;
  }

  lemma {:induction false} LosslessRun(evs: seq<Event>)
    requires RotatesLosslessly(evs)
    ensures Lossless(Run(FRESH, evs)) && AllInDomain(Run(FRESH, evs))
  {
    hide Next, InDomain;
    EmptyInDomain();
    if evs != [] {
      LosslessRun(evs[..|evs| - 1]);
      AllInDomainStep(Run(FRESH, evs[..|evs| - 1]), evs[|evs| - 1]);
    }
  }

  // ---------------------------------------------------------------- no loss

  /** A running store shows at least every acknowledged point, each as often as
      it was acknowledged. */
  ghost predicate NothingLost(s: State) {
    !s.pc.Down? ==> multiset(s.acked) <= multiset(Visible(s))
  }

  ghost predicate NothingInvented(s: State) {
    !s.pc.Down? ==> AllIn(Visible(s), s.submitted)
  }

  /** Over every run of writes, flushes, failures, crashes between or inside any
      two disk operations, and openings (which may crash too), as long as nothing
      is appended behind a torn log record: whatever the codec makes of its buffers,
      the store holds every acknowledged point, and only submitted ones. It shows
      what it holds if and only if the codec restores every indexed chunk, and the
      acknowledged timestamps whatever becomes of the values. */
  lemma NoAcknowledgedPointLost(evs: seq<Event>)
    requires RotatesFairly(evs, MAX_CHUNK_ID) && AppendsFairly(evs) && !Run(FRESH, evs).pc.Down?
    ensures var s := Run(FRESH, evs);
            && multiset(s.acked) <= multiset(Kept(s)) && AllIn(Kept(s), s.submitted)
            && |Visible(s)| == |Kept(s)| && (Visible(s) == Kept(s) <==> Lossless(s))
            && (Lossless(s) ==> NothingLost(s) && NothingInvented(s))
            && (TimesLossless(s) ==> multiset(Times(s.acked)) <= multiset(Times(Visible(s))))
  {
    hide Run, Lossless, TimesLossless, ValuesLossless, Consistent, Kept, Visible, AllIn, RotatesFairly, AppendsFairly;
    var s := Run(FRESH, evs);
    InvRun(evs);
    DurableRun(evs);
    KeptSubmitted(s);
    AckedKept(s);
    VisibleKept(s);
    TimesCount(s.acked, Kept(s));
  }

  /** The same for runs whose rotations are in the codec's domain. */
  lemma NothingLostInDomain(evs: seq<Event>)
    requires Fair(evs, MAX_CHUNK_ID)
    ensures NothingLost(Run(FRESH, evs)) && NothingInvented(Run(FRESH, evs))
  {
    hide Run, Lossless, RotatesFairly, AppendsFairly, RotatesLosslessly, AllInDomain;
    LosslessRun(evs);
    if !Run(FRESH, evs).pc.Down? {
      NoAcknowledgedPointLost(evs);
    }
  }

  lemma AckedKept(s: State)
    requires LogBacked(s)
    ensures multiset(s.acked) <= multiset(Kept(s))
  {
    hide Kept, Sourced, Recovered, WalOf;
  }

  lemma TimesWithout(ps: seq<Point>, k: nat)
    requires k < |ps|
    ensures var rest := ps[..k] + ps[k + 1..];
            && multiset(ps) == multiset(rest) + multiset{ps[k]}
            && multiset(Times(ps)) == multiset(Times(rest)) + multiset{ps[k].ts}
  {
    hide Times;
    var a, b := ps[..k], ps[k + 1..];
    assert ps == a + [ps[k]] + b && Times([ps[k]]) == [ps[k].ts];
    TimesConcat(a + [ps[k]], b); TimesConcat(a, [ps[k]]); TimesConcat(a, b);
  }

  lemma SameAdded<T>(a: multiset<T>, b: multiset<T>, x: T)
    ensures a + multiset{x} <= b + multiset{x} <==> a <= b
  {
    if a + multiset{x} <= b + multiset{x} {
      forall y ensures a[y] <= b[y] {
        assert (a + multiset{x})[y] <= (b + multiset{x})[y];
      }
    }
  }

  lemma TimesFirst(ps: seq<Point>)
    requires ps != []
    ensures multiset(ps) == multiset(ps[1..]) + multiset{ps[0]}
    ensures multiset(Times(ps)) == multiset(Times(ps[1..])) + multiset{ps[0].ts}
  {
    hide Times;
    TimesWithout(ps, 0);
    assert ps[..0] + ps[1..] == ps[1..];
  }

  lemma PositionOf(ps: seq<Point>, qs: seq<Point>) returns (k: nat)
    requires ps != [] && multiset(ps) <= multiset(qs)
    ensures k < |qs| && qs[k] == ps[0]
  {
    assert ps[0] in multiset(qs);
    k :| 0 <= k < |qs| && qs[k] == ps[0];
  }

  lemma {:induction false} TimesCount(ps: seq<Point>, qs: seq<Point>)
    requires multiset(ps) <= multiset(qs)
    ensures multiset(Times(ps)) <= multiset(Times(qs))
  {
    hide Times;
    if ps == [] {
      assert |Times(ps)| == 0;
    } else {
      var k := PositionOf(ps, qs);
      TimesFirst(ps); TimesWithout(qs, k);
      var rest := qs[..k] + qs[k + 1..];
      SameAdded(multiset(ps[1..]), multiset(rest), ps[0]);
      TimesCount(ps[1..], rest);
      SameAdded(multiset(Times(ps[1..])), multiset(Times(rest)), ps[0].ts);
    }
  }

  lemma KeptSubmitted(s: State)
    requires LogBacked(s)
    ensures AllIn(Kept(s), s.submitted)
  {
    hide Written, Recovered, WalOf;
    BufferSubmitted(s);
    WrittenSubmitted(s, s.mem.index);
  }

  lemma {:induction false} WrittenSubmitted(s: State, es: seq<IndexEntry>)
    requires Sourced(s.dir, s.chunks, s.submitted)
    ensures AllIn(Written(s.chunks, es), s.submitted)
  {
    hide Recovered, WalOf;
    if es != [] {
      WrittenSubmitted(s, es[..|es| - 1]);
    }
  }

  // ---------------------------------------------------------------- opening is always possible

  ghost predicate SortedByStart(es: seq<IndexEntry>) {
    forall i, j | 0 <= i < j < |es| :: es[i].start <= es[j].start
  }

  /** Places an entry among entries sorted by start time. */
  function InsertByStart(es: seq<IndexEntry>, e: IndexEntry): seq<IndexEntry> {
    if es == [] || e.start <= es[0].start then [e] + es else [es[0]] + InsertByStart(es[1..], e)
  }

  lemma {:induction false} InsertSorted(es: seq<IndexEntry>, e: IndexEntry)
    requires SortedByStart(es) && DistinctNames(es) && forall f | f in es :: f.name != e.name
    ensures var r := InsertByStart(es, e);
            SortedByStart(r) && DistinctNames(r) && forall f :: f in r <==> f in es || f == e
  {
    hide SortedByStart, DistinctNames;
    if es == [] || e.start <= es[0].start {
      ConsSorted(e, es);
    } else {
      UnconsSorted(es);
      assert es == [es[0]] + es[1..];
      InsertSorted(es[1..], e);
      ConsSorted(es[0], InsertByStart(es[1..], e));
    }
  }

  lemma ConsSorted(e: IndexEntry, es: seq<IndexEntry>)
    requires SortedByStart(es) && DistinctNames(es)
    requires forall f | f in es :: f.name != e.name
    requires (es != [] && e.start <= es[0].start) || forall f | f in es :: e.start <= f.start
    ensures SortedByStart([e] + es) && DistinctNames([e] + es)
  {
    assert forall i | 0 <= i < |es| :: es[i] in es && ([e] + es)[i + 1] == es[i];
  }

  lemma UnconsSorted(es: seq<IndexEntry>)
    requires es != [] && SortedByStart(es) && DistinctNames(es)
    ensures SortedByStart(es[1..]) && DistinctNames(es[1..])
    ensures forall f | f in es[1..] :: f in es && es[0].start <= f.start && f.name != es[0].name
  {
    assert forall i | 0 <= i < |es| - 1 :: es[1..][i] == es[i + 1];
  }

  lemma {:induction false} SortedScan(dir: Dir, names: set<string>) returns (es: seq<IndexEntry>)
    requires forall name | name in names :: ScanEntry(dir, name).Some?
    ensures DistinctNames(es) && SortedByStart(es)
    ensures forall e | e in es :: e.name in names && ScanEntry(dir, e.name) == Some(e)
    ensures forall name | name in names :: ScanEntry(dir, name).value in es
  {
    hide MatchChunkName, ReadHeader, SortedByStart, DistinctNames;
    if names == {} {
      es := [];
      EmptyScan();
    } else {
      var name :| name in names;
      var rest := SortedScan(dir, names - {name});
      ScanEntryName(dir, name);
      InsertSorted(rest, ScanEntry(dir, name).value);
      es := InsertByStart(rest, ScanEntry(dir, name).value);
    }
  }

  lemma EmptyScan()
    ensures SortedByStart([]) && DistinctNames([])
  {
  }

  lemma ScanEntryName(dir: Dir, name: string)
    requires ScanEntry(dir, name).Some?
    ensures ScanEntry(dir, name).value.name == name
  {
  }

  /** A crashed store can always be opened. */
  lemma CanOpen(s: State) returns (scan: seq<IndexEntry>)
    requires s.pc.Down?
    ensures Next(s, Open(scan, Untouched, true)).pc.Idle?
  {
    hide ReadHeader, MatchChunkName, LoadIndex, Recovered, MaxID;
    if LoadIndexFile(s.dir).Some? {
      scan := [];
    } else {
      scan := SortedScan(s.dir, set name | name in s.dir && ScanEntry(s.dir, name).Some?);
    }
  }

  // ---------------------------------------------------------------- points stored twice

  /** A crash in one of the two windows that double points: after the index
      rename and before the log is truncated, or after a chunk rename and before
      the very first index.dat. */
  ghost predicate DoublingCrash(s: State, e: Event) {
    e.Crash? && (s.pc.Truncating? || (s.pc.Replacing? && s.pc.target == ToIndex && LoadIndexFile(s.dir).None?))
  }

  /** No disk operation fails, and no crash falls into the two windows. */
  ghost predicate Undoubled(evs: seq<Event>) {
    evs != [] ==>
      var before, e := evs[..|evs| - 1], evs[|evs| - 1];
      Undoubled(before) && !e.Fail? && !DoublingCrash(Run(FRESH, before), e)
  }

  function InFlight(pc: Pc): seq<Point> {
    if pc.Logging? then [pc.p] else []
  }

  ghost predicate NoChunks(dir: Dir) {
    forall name | name in dir :: !IsChunkName(name)
  }

  /** Points are held once each, in the order they were submitted. */
  ghost predicate Once(s: State) {
    if s.pc.Down? then
      && (LoadIndexFile(s.dir).None? ==> NoChunks(s.dir))
      && forall es | Rebuilt(s.dir, es) ::
           Between(s.acked, Written(s.chunks, es) + Recovered(WalOf(s.dir)), s.submitted)
    else
      && (LoadIndexFile(s.dir).None? ==>
            s.mem.index == [] && (NoChunks(s.dir) || (s.pc.Replacing? && s.pc.target == ToIndex)))
      && Subseq(s.acked + Pending(s.pc), Kept(s)) && Subseq(Kept(s) + InFlight(s.pc), s.submitted)
      && (!s.pc.Truncating? ==> Recovered(WalOf(s.dir)) == s.mem.buffer)
  }

  ghost predicate Between(a: seq<Point>, b: seq<Point>, c: seq<Point>) {
    Subseq(a, b) && Subseq(b, c)
  }

  lemma SameChunksRead(dir: Dir, dir': Dir, es: seq<IndexEntry>)
    requires SameChunks(dir, dir') && IndexOk(dir, es, MAX_CHUNK_ID)
    ensures LoadIndexFile(dir') == LoadIndexFile(dir) && Committed(dir', es) == Committed(dir, es)
    ensures NoChunks(dir) <==> NoChunks(dir')
  {
    hide MatchChunkName, ChunkContents, LoadIndex;
    CommittedFrame(dir, dir', es);
  }

  lemma ScanNonempty(dir: Dir, es: seq<IndexEntry>)
    ensures IsScan(dir, es) && es != [] ==> !NoChunks(dir)
  {
    if IsScan(dir, es) && es != [] {
      assert es[0] in es;
    }
  }

  lemma RebuiltUndoubled(dir: Dir, index: seq<IndexEntry>, es: seq<IndexEntry>)
    requires Rebuilt(dir, es) && IndexBacked(dir, index)
    requires LoadIndexFile(dir).None? ==> index == [] && NoChunks(dir)
    ensures es == index
  {
    hide LoadIndex, ReadHeader, MatchChunkName;
    ScanNonempty(dir, es);
  }

  lemma CrashBetween(
      acked: seq<Point>, pending: seq<Point>, kept: seq<Point>, flight: seq<Point>, done: seq<Point>,
      submitted: seq<Point>)
    requires Subseq(acked + pending, kept) && Subseq(kept + flight, submitted) && (done == [] || done == flight)
    ensures Between(acked, kept + done, submitted)
  {
    hide Subseq;
    SubseqPrefix(acked, pending, kept);
    SubseqLonger(acked, kept, done);
    if done == [] {
      SubseqPrefix(kept, flight, submitted);
      assert kept + done == kept;
    }
  }

  lemma OnceCrash(s: State, n: nat)
    requires Running(s) && Once(s) && !DoublingCrash(s, Crash(n)) && !s.pc.Down?
    requires Appends(s, Crash(n)) ==> |WalOf(s.dir)| % RECORD_SIZE == 0
    ensures Once(Next(s, Crash(n)))
  {
    hide Committed, Written, Subseq, Recovered, Partial, ChunksOk, PcOk, LoadIndexFile, WalOf, MatchChunkName,
         IndexBacked,
         SameChunks;
    var dir := Partial(s, n);
    PartialStep(s, n);
    PartialLog(s, n);
    IndexBounded(s);
    SameChunksRead(s.dir, dir, s.mem.index);
    CrashBetween(s.acked, Pending(s.pc), Kept(s), InFlight(s.pc), Completed(s, n), s.submitted);
    forall es | Rebuilt(dir, es)
      ensures Between(s.acked, Written(s.chunks, es) + Recovered(WalOf(dir)), s.submitted)
    {
      RebuiltUndoubled(dir, s.mem.index, es);
      assert Written(s.chunks, es) + Recovered(WalOf(dir)) == Kept(s) + Completed(s, n);
    }
  }

  lemma OnceOpen(s: State, entries: seq<IndexEntry>, rewrite: Rewrite, up: bool)
    requires Openable(s) && Once(s) && s.pc.Down? && Rebuilt(s.dir, entries)
    ensures Once(OpenStep(s, entries, rewrite, up))
  {
    hide Committed, Written, Subseq, LoadIndex, ReadHeader, RewriteIndex, WholeChunk;
    var dir := OpenedDir(s, entries, rewrite);
    LoadedEntries(s.dir, entries);
    ScanNonempty(s.dir, entries);
    if LoadIndexFile(s.dir).None? {
      RewrittenDir(s.dir, entries, rewrite);
      if !rewrite.Replaced? { SameChunksRead(s.dir, dir, entries); }
    }
    if up {
      var s' := OpenStep(s, entries, rewrite, up);
      assert s'.acked + Pending(s'.pc) == s.acked && Kept(s') + InFlight(s'.pc) == Kept(s');
    } else {
      forall es | Rebuilt(dir, es)
        ensures Between(s.acked, Written(s.chunks, es) + Recovered(WalOf(dir)), s.submitted)
      {
        RebuiltAgain(s.dir, dir, entries, rewrite, es);
      }
    }
  }

  lemma LoggedState(s: State)
    requires s.pc.Logging?
    ensures var p, s' := s.pc.p, AdvanceStep(s);
            && s'.dir == AppendWal(s.dir, Record(p)) && s'.submitted == s.submitted && s'.logged == s.logged + [p]
            && s'.mem.index == s.mem.index && s'.mem.buffer == s.mem.buffer + [p] && s'.chunks == s.chunks
            && s'.acked + Pending(s'.pc) == s.acked + [p] && InFlight(s'.pc) == [] && !s'.pc.Down? && !s'.pc.Truncating?
            && !(s'.pc.Replacing? && s'.pc.target == ToIndex)
  {
    hide Record, ChunkBytes, IndexText, ChunkName;
    assert s.acked + [s.pc.p] + [] == s.acked + [s.pc.p];
  }

  lemma OnceLogged(s: State)
    requires Running(s) && Once(s) && s.pc.Logging? && |WalOf(s.dir)| % RECORD_SIZE == 0
    ensures Once(AdvanceStep(s))
  {
    hide Committed, Written, Recovered, AppendWal, Subseq, AdvanceStep;
    var p, s' := s.pc.p, AdvanceStep(s);
    LoggedState(s);
    WalGrows(s, Record(p));
    AppendAligned(WalOf(s.dir), p);
    IndexBounded(s);
    SameChunksRead(s.dir, AppendWal(s.dir, Record(p)), s.mem.index);
    assert Kept(s') == Kept(s) + [p] && s.acked + [] == s.acked && Kept(s) + [p] + [] == Kept(s) + [p];
    SubseqLast(s.acked, Kept(s), p);
  }

  /** A rotation begins by building a chunk, not by touching the index. */
  lemma NotLogging(s: State)
    requires s.mem.buffer != []
    ensures forall ack ::
              var pc := BeginRotation(s, ack).pc;
              InFlight(pc) == [] && pc.Replacing? && pc.target == ToChunk
  {
  }

  lemma OnceTmp(s: State)
    requires Running(s) && Once(s) && s.pc.Replacing? && s.pc.stage != Rename
    ensures Once(AdvanceStep(s))
  {
    hide Committed, WholeChunk, ChunkBytes, Subseq;
    TmpPhase(s);
    IndexBounded(s);
    SameChunksRead(s.dir, AdvanceStep(s).dir, s.mem.index);
  }

  lemma OnceChunkRename(s: State)
    requires Running(s) && Once(s) && s.pc.Replacing? && s.pc.target == ToChunk && s.pc.stage == Rename
    ensures Once(AdvanceStep(s))
  {
    hide Kept, Recovered, WholeChunk, Subseq;
    ChunkRename(s);
  }

  lemma OnceIndexRename(s: State)
    requires Running(s) && Once(s) && s.pc.Replacing? && s.pc.target == ToIndex && s.pc.stage == Rename
    ensures Once(AdvanceStep(s))
  {
    hide Kept, LoadIndex, ReadHeader, Recovered, ChunkBytes, IndexText, LengthsFit, Subseq;
    IndexRename(s);
  }

  lemma OnceReplaced(s: State)
    requires Running(s) && Once(s) && s.pc.Replacing?
    ensures Once(AdvanceStep(s))
  {
    hide Running, Once, AdvanceStep;
    match s.pc
    case Replacing(_, ToChunk, Rename) => OnceChunkRename(s);
    case Replacing(_, ToIndex, Rename) => OnceIndexRename(s);
    case Replacing(_, _, _) => OnceTmp(s);
  }

  lemma OnceAdvance(s: State)
    requires Running(s) && Once(s) && !s.pc.Down? && (s.pc.Logging? ==> |WalOf(s.dir)| % RECORD_SIZE == 0)
    ensures Once(AdvanceStep(s))
  {
    hide Running, Once;
    match s.pc
    case Idle =>
    case Logging(_) => OnceLogged(s);
    case Replacing(_, _, _) => OnceReplaced(s);
    case Truncating(_) => OnceTruncated(s);
  }

  lemma OnceTruncated(s: State)
    requires Running(s) && Once(s) && s.pc.Truncating?
    ensures Once(AdvanceStep(s))
  {
    hide Committed, Written, Recovered, SameChunks, IndexBacked, ChunksOk, Subseq;
    var s' := AdvanceStep(s);
    TruncateStep(s);
    NothingRecovered();
    assert s'.acked + Pending(s'.pc) == s.acked + Pending(s.pc) && Kept(s') == Kept(s);
    IndexBounded(s);
    SameChunksRead(s.dir, s'.dir, s.mem.index);
  }

  lemma OnceStep(s: State, e: Event)
    requires Inv(s) && Once(s) && !e.Fail? && !DoublingCrash(s, e)
    requires Appends(s, e) ==> |WalOf(s.dir)| % RECORD_SIZE == 0
    ensures Once(Next(s, e))
  {
    hide Running, Openable, OpenStep;
    match e
    case Submit(p) => OnceSubmit(s, p);
    case Flush => OnceFlush(s);
    case Advance => if s.pc.Down? { AdvanceKinds(s); } else { OnceAdvance(s); }
    case Crash(n) => if !s.pc.Down? { OnceCrash(s, n); }
    case Open(scan, rewrite, up) =>
      if s.pc.Down? && Rebuilt(s.dir, if LoadIndexFile(s.dir).Some? then LoadIndexFile(s.dir).value else scan) {
        OnceOpen(s, if LoadIndexFile(s.dir).Some? then LoadIndexFile(s.dir).value else scan, rewrite, up);
        OpenStepEntries(s, scan, rewrite, up);
      }
  }

  lemma OpenStepEntries(s: State, scan: seq<IndexEntry>, rewrite: Rewrite, up: bool)
    ensures var entries := if LoadIndexFile(s.dir).Some? then LoadIndexFile(s.dir).value else scan;
            OpenStep(s, entries, rewrite, up) == OpenStep(s, scan, rewrite, up)
  {
  }

  lemma OnceSubmit(s: State, p: Point)
    requires Once(s)
    ensures Once(Next(s, Submit(p)))
  {
    hide Written, Recovered, LoadIndexFile, NoChunks, Subseq;
    if s.pc.Idle? {
      assert Kept(Next(s, Submit(p))) == Kept(s) && Kept(s) + [] == Kept(s);
      SubseqLast(Kept(s), s.submitted, p);
    }
  }

  lemma OnceFlush(s: State)
    requires Once(s)
    ensures Once(Next(s, Flush))
  {
    hide Written, Recovered, LoadIndexFile, NoChunks, BeginRotation, Subseq;
    if s.pc.Idle? && s.mem.buffer != [] {
      NotLogging(s);
      BeginKeeps(s);
    }
  }

  /** A flush begins without touching files, index, buffer or history. */
  lemma BeginKeeps(s: State)
    requires s.mem.buffer != []
    ensures var s' := BeginRotation(s, None);
            && s'.dir == s.dir && s'.mem.index == s.mem.index && s'.mem.buffer == s.mem.buffer
            && s'.submitted == s.submitted && s'.logged == s.logged && s'.acked == s.acked && s'.chunks == s.chunks
            && Pending(s'.pc) == []
  {
  }

  lemma {:induction false} OnceRun(evs: seq<Event>)
    requires RotatesFairly(evs, MAX_CHUNK_ID) && AppendsFairly(evs) && Undoubled(evs)
    ensures Once(Run(FRESH, evs))
  {
    hide Inv, Once, Next, RotatesSafely, Appends, DoublingCrash;
    if evs == [] {
      OnceFresh();
    } else {
      OnceRun(evs[..|evs| - 1]);
      InvRun(evs[..|evs| - 1]);
      OnceStep(Run(FRESH, evs[..|evs| - 1]), evs[|evs| - 1]);
    }
  }

  lemma OnceFresh()
    ensures Once(FRESH)
  {
    assert FRESH.acked + [] == [] && Kept(FRESH) == [] && Kept(FRESH) + [] == [];
  }

  /** Without disk failures and outside the two windows, crashes included: the
      acknowledged points are held in the order of their acknowledgement, and the
      points held are submitted ones, in the order of their submission and each held
      once. So are the points shown, if the codec restores every indexed chunk. */
  lemma StoredOnce(evs: seq<Event>)
    requires RotatesFairly(evs, MAX_CHUNK_ID) && AppendsFairly(evs) && Undoubled(evs) && !Run(FRESH, evs).pc.Down?
    ensures var s := Run(FRESH, evs);
            && Between(s.acked, Kept(s), s.submitted)
            && multiset(s.acked) <= multiset(Kept(s)) <= multiset(s.submitted)
            && (Visible(s) == Kept(s) <==> Lossless(s))
  {
    hide Run, Kept, Visible, Subseq, RotatesFairly, AppendsFairly, Undoubled, Lossless, TimesLossless, ValuesLossless,
         Consistent;
    var s := Run(FRESH, evs);
    OnceRun(evs); InvRun(evs);
    VisibleKept(s);
    SubseqPrefix(s.acked, Pending(s.pc), Kept(s)); SubseqPrefix(Kept(s), InFlight(s.pc), s.submitted);
    SubseqCounts(s.acked, Kept(s)); SubseqCounts(Kept(s), s.submitted);
  }

  // ---------------------------------------------------------------- crash-free runs

  lemma EmptyBelowLimits()
    ensures !ShouldRotate([])
  {
  }

  ghost predicate CrashFree(evs: seq<Event>) {
    forall e | e in evs :: !e.Crash?
  }

  /** A later state holds what an earlier one held and, behind it, the writes logged
      since. Its index only grew, and the files of the earlier index are untouched. */
  ghost predicate Extends(s: State, s': State) {
    && s.logged <= s'.logged && Kept(s') == Kept(s) + s'.logged[|s.logged|..]
    && s.mem.index <= s'.mem.index
    && forall e | e in s.mem.index :: e.name in s.dir && e.name in s'.dir && s'.dir[e.name] == s.dir[e.name]
  }

  lemma ExtendsSame(s: State, s': State)
    requires Running(s) && SameChunks(s.dir, s'.dir) && s'.mem.index == s.mem.index && s'.logged == s.logged
    requires Kept(s') == Kept(s)
    ensures Extends(s, s')
  {
    hide MatchChunkName, Kept, ChunksOk, PcOk;
    assert Kept(s) + [] == Kept(s);
  }

  lemma ExtendsTransitive(s: State, s': State, s'': State)
    requires Extends(s, s') && Extends(s', s'')
    ensures Extends(s, s'')
  {
    hide Kept;
    var n, m := |s.logged|, |s'.logged|;
    assert s''.logged[n..] == s'.logged[n..] + s''.logged[m..];
    assert Kept(s) + s'.logged[n..] + s''.logged[m..] == Kept(s) + (s'.logged[n..] + s''.logged[m..]);
    forall e | e in s.mem.index ensures e in s'.mem.index {
      var i :| 0 <= i < |s.mem.index| && s.mem.index[i] == e;
      assert s'.mem.index[i] == e;
    }
  }

  lemma ExtendsStep(s: State, e: Event)
    requires Running(s) && !s.pc.Down? && RotatesSafely(s, e, MAX_CHUNK_ID) && !e.Crash?
    ensures Extends(s, Next(s, e)) && !Next(s, e).pc.Down?
  {
    hide Running, AdvanceStep, BeginRotation, Kept, Partial, SameChunks, RotatesSafely, Extends;
    SameChunksRefl(s.dir);
    match e
    case Submit(p) => SameKept(s, Next(s, e)); ExtendsSame(s, Next(s, e));
    case Flush =>
      if s.pc.Idle? && s.mem.buffer != [] { BeginKeeps(s); NotLogging(s); SameKept(s, Next(s, e)); }
      ExtendsSame(s, Next(s, e));
    case Advance => ExtendsAdvance(s); AdvanceStaysUp(s);
    case Fail(n) => PartialStep(s, n); SameKept(s, Next(s, e)); ExtendsSame(s, Next(s, e));
    case Open(_, _, _) => ExtendsSame(s, s);
  }

  lemma SameKept(s: State, s': State)
    requires s'.chunks == s.chunks && s'.mem.index == s.mem.index && s'.mem.buffer == s.mem.buffer
    ensures Kept(s') == Kept(s)
  {
  }

  lemma ExtendsAdvance(s: State)
    requires Running(s) && !s.pc.Down? && RotatesSafely(s, Advance, MAX_CHUNK_ID)
    ensures Extends(s, AdvanceStep(s))
  {
    hide Running, AdvanceStep, Extends, SameChunks, Kept;
    match s.pc
    case Idle => AdvanceIdle(s); SameChunksRefl(s.dir); ExtendsSame(s, s);
    case Logging(_) => ExtendsLogged(s);
    case Replacing(_, ToChunk, Rename) => ExtendsChunkRename(s);
    case Replacing(_, ToIndex, Rename) => ExtendsIndexRename(s);
    case Replacing(_, _, _) => TmpPhase(s); UntouchedKept(s); ExtendsSame(s, AdvanceStep(s));
    case Truncating(_) => TruncateStep(s); UntouchedKept(s); ExtendsSame(s, AdvanceStep(s));
  }

  lemma UntouchedKept(s: State)
    requires s.pc.Truncating? || (s.pc.Replacing? && s.pc.stage != Rename)
    ensures var s' := AdvanceStep(s); s'.mem == s.mem && s'.logged == s.logged && Kept(s') == Kept(s)
  {
    hide Written, DataOf, TmpName, TruncateWal;
  }

  lemma ExtendsLogged(s: State)
    requires Running(s) && s.pc.Logging?
    ensures Extends(s, AdvanceStep(s))
  {
    hide Written, AppendWal, AdvanceStep, MatchChunkName, ChunksOk, PcOk;
    LoggedState(s);
    WalGrows(s, Record(s.pc.p));
    assert Kept(AdvanceStep(s)) == Kept(s) + [s.pc.p];
  }

  lemma ExtendsChunkRename(s: State)
    requires Running(s) && s.pc.Replacing? && s.pc.target == ToChunk && s.pc.stage == Rename
    ensures Extends(s, AdvanceStep(s))
  {
    hide Kept, ChunksOk, MatchChunkName, TmpName, FinalName, RenameFile, ChunkBytes, IndexText, LengthsFit, ToBytes;
    ChunkRename(s); ChunkRenamedDir(s);
    assert Kept(s) + [] == Kept(s);
  }

  lemma ExtendsIndexRename(s: State)
    requires Running(s) && s.pc.Replacing? && s.pc.target == ToIndex && s.pc.stage == Rename
    ensures Extends(s, AdvanceStep(s))
  {
    hide Kept, ChunksOk, MatchChunkName, RenameFile, ChunkBytes, IndexText, LengthsFit, ToBytes, LoadIndexFile;
    IndexRename(s); IndexRenamedDir(s);
    assert Kept(s) + [] == Kept(s);
  }

  lemma AdvanceIdle(s: State)
    requires s.pc.Idle?
    ensures AdvanceStep(s) == s
  {
  }

  /** From any point of any run on, until the next crash, the store appends exactly
      the logged writes to what it holds, and leaves indexed chunks alone. */
  lemma {:induction false} UnbrokenRun(before: seq<Event>, after: seq<Event>)
    requires before <= after && RotatesFairly(after, MAX_CHUNK_ID) && !Run(FRESH, before).pc.Down?
    requires CrashFree(after[|before|..])
    ensures Extends(Run(FRESH, before), Run(FRESH, after)) && !Run(FRESH, after).pc.Down?
    decreases |after|
  {
    hide Running, Next, RotatesSafely, Extends, SameChunks;
    if before == after {
      InvRun(before);
      SameChunksRefl(Run(FRESH, before).dir);
      ExtendsSame(Run(FRESH, before), Run(FRESH, before));
    } else {
      var init, e := after[..|after| - 1], after[|after| - 1];
      assert after[|before|..] == init[|before|..] + [e];
      UnbrokenRun(before, init);
      InvRun(init);
      ExtendsStep(Run(FRESH, init), e);
      ExtendsTransitive(Run(FRESH, before), Run(FRESH, init), Run(FRESH, after));
    }
  }

  /** In a run without crashes, whatever fails and whatever the log holds, the
      buffers the indexed chunks were written from, in index order, followed by the
      buffer are exactly the logged writes in order. What the store shows is as long,
      and it is these writes exactly when every indexed chunk was written from a
      buffer in the codec's domain; so too for the timestamps and the values alone. */
  lemma CrashFreeOrder(evs: seq<Event>)
    requires RotatesFairly(evs, MAX_CHUNK_ID) && CrashFree(evs)
    ensures var s := Run(FRESH, evs);
            && !s.pc.Down? && Kept(s) == s.logged && |Visible(s)| == |s.logged|
            && (Visible(s) == s.logged <==> Lossless(s))
            && (Times(Visible(s)) == Times(s.logged) <==> TimesLossless(s))
            && (Values(Visible(s)) == Values(s.logged) <==> ValuesLossless(s))
  {
    hide Run, Visible, Lossless, TimesLossless, ValuesLossless, Consistent, RotatesFairly;
    assert Run(FRESH, []) == FRESH by { NothingRan(); }
    assert evs[0..] == evs;
    InvRun(evs); UnbrokenRun([], evs);
    VisibleKept(Run(FRESH, evs));
  }

  lemma NothingRan()
    ensures Run(FRESH, []) == FRESH
  {
  }

  // ---------------------------------------------------------------- acknowledged and logged

  lemma AckedLoggedStep(s: State, e: Event)
    requires Subseq(s.acked + Pending(s.pc), s.logged)
    ensures Subseq(Next(s, e).acked + Pending(Next(s, e).pc), Next(s, e).logged)
  {
    hide Subseq, ShouldRotate, Record, Rebuilt, Partial, RewriteIndex, LoadIndexFile, ChunkBytes, IndexText, MaxID,
         RenameFile, TruncateWal;
    SubseqPrefix(s.acked, Pending(s.pc), s.logged);
    assert s.acked + [] == s.acked;
    if e.Advance? && s.pc.Logging? {
      SubseqLast(s.acked, s.logged, s.pc.p);
      LoggedState(s);
    } else {
      var s' := Next(s, e);
      assert s'.logged == s.logged;
      assert s'.acked + Pending(s'.pc) == s.acked + Pending(s.pc) || s'.acked + Pending(s'.pc) == s.acked;
    }
  }

  /** In every run, with no assumption at all, the acknowledged writes are among the
      logged ones, in the same order. */
  lemma {:induction false} AckedAreLogged(evs: seq<Event>)
    ensures var s := Run(FRESH, evs); Subseq(s.acked + Pending(s.pc), s.logged) && Subseq(s.acked, s.logged)
  {
    hide Next, Subseq;
    var s := Run(FRESH, evs);
    if evs == [] {
      NothingAcked();
    } else {
      AckedAreLogged(evs[..|evs| - 1]);
      AckedLoggedStep(Run(FRESH, evs[..|evs| - 1]), evs[|evs| - 1]);
    }
    SubseqPrefix(s.acked, Pending(s.pc), s.logged);
  }

  lemma NothingAcked()
    ensures Subseq(FRESH.acked + Pending(FRESH.pc), FRESH.logged)
  {
    assert FRESH.acked + Pending(FRESH.pc) == [];
  }
}
