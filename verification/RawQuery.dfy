/** Raw reads: pruning chunks by their time range, merging with the buffer and
    filtering in place, against the plain filter of everything stored. */
module RawQuery {
  import opened Words
  import opened Wrappers
  import opened Codec
  import opened ChunkFile
  import opened CodecTheorems
  import opened Wal
  import opened IndexFile
  import opened StoreMachine
  import opened StoreInvariant
  import opened StoreSteps
  import opened StoreDurability
  import opened StoreTheorems
  import opened StoreCalm
  import opened Subsequences

  // ---------------------------------------------------------------- reading

  predicate InRange(p: Point, start: Word, end: Word) {
    start <= p.ts && p.ts <= end
  }

  /** The points with start <= ts <= end, in order. */
  function Filter(ps: seq<Point>, start: Word, end: Word): seq<Point> {
    if ps == [] then []
    else
      var last := ps[|ps| - 1];
      Filter(ps[..|ps| - 1], start, end) + if InRange(last, start, end) then [last] else []
  }

  /** The range a chunk records and the range of a query meet. */
  predicate RangesMeet(first: Word, last: Word, start: Word, end: Word) {
    last >= start && first <= end
  }

  /** The names of the chunks whose recorded range meets [start, end]. */
  function Found(es: seq<IndexEntry>, start: Word, end: Word): seq<string> {
    if es == [] then []
    else
      var last := es[|es| - 1];
      Found(es[..|es| - 1], start, end) + if RangesMeet(last.start, last.end, start, end) then [last.name] else []
  }

  /** The points of the named chunks, one file after the other. */
  function Gathered(dir: Dir, names: seq<string>): seq<Point> {
    if names == [] then []
    else Gathered(dir, names[..|names| - 1]) + ChunkContents(dir, names[|names| - 1])
  }

  function Raw(dir: Dir, es: seq<IndexEntry>, buffer: seq<Point>, start: Word, end: Word): seq<Point> {
    Filter(Gathered(dir, Found(es, start, end)) + buffer, start, end)
  }

  method FindChunks(es: seq<IndexEntry>, start: Word, end: Word) returns (names: seq<string>)
    ensures names == Found(es, start, end)
  {
    names := [];
    for i := 0 to |es|
      invariant names == Found(es[..i], start, end)
    {
      assert es[..i + 1][..i] == es[..i];
      if es[i].end >= start && es[i].start <= end {
        names := names + [es[i].name];
      }
    }
    assert es[..|es|] == es;
  }

  /** Keeps the points in range, writing them over the front of the same array. */
  method FilterInPlace(a: array<Point>, start: Word, end: Word) returns (n: nat)
    modifies a
    ensures n <= a.Length && a[..n] == Filter(old(a[..]), start, end)
  {
    n := 0;
    ghost var all := a[..];
    for i := 0 to a.Length
      invariant n <= i && forall k | i <= k < a.Length :: a[k] == all[k]
      invariant a[..n] == Filter(all[..i], start, end)
    {
      assert all[..i + 1][..i] == all[..i];
      if a[i].ts >= start && a[i].ts <= end {
        ghost var kept := a[..n];
        a[n] := a[i];
        assert a[..n + 1] == kept + [all[i]];
        n := n + 1;
      }
    }
    assert all[..a.Length] == all;
  }

  /** The raw path of a query: unreadable chunks are skipped. */
  method ReadRaw(dir: Dir, es: seq<IndexEntry>, buffer: seq<Point>, start: Word, end: Word) returns (result: seq<Point>)
    ensures result == Raw(dir, es, buffer, start, end)
  {
    hide ReadChunk;
    var names := FindChunks(es, start, end);
    var all: seq<Point> := [];
    for i := 0 to |names|
      invariant all == Gathered(dir, names[..i])
    {
      assert names[..i + 1][..i] == names[..i];
      if names[i] in dir {
        var read := ReadChunk(dir[names[i]]);
        if read.ChunkPoints? {
          all := all + read.points;
        }
      }
    }
    assert names[..|names|] == names;
    all := all + buffer;
    var points := new Point[|all|](i requires 0 <= i < |all| => all[i]);
    assert points[..] == all;
    var n := FilterInPlace(points, start, end);
    result := points[..n];
  }

  // ---------------------------------------------------------------- what pruning may drop

  lemma {:induction false} FilterConcat(ps: seq<Point>, qs: seq<Point>, start: Word, end: Word)
    ensures Filter(ps + qs, start, end) == Filter(ps, start, end) + Filter(qs, start, end)
  {
    if qs == [] {
      assert ps + qs == ps;
    } else {
      FilterConcat(ps, qs[..|qs| - 1], start, end);
      assert (ps + qs)[..|ps + qs| - 1] == ps + qs[..|qs| - 1];
    }
  }

  lemma {:induction false} FilterNone(ps: seq<Point>, start: Word, end: Word)
    ensures Filter(ps, start, end) == [] <==> forall p | p in ps :: !InRange(p, start, end)
  {
    if ps != [] {
      FilterNone(ps[..|ps| - 1], start, end);
      assert ps == ps[..|ps| - 1] + [ps[|ps| - 1]];
    }
  }

  /** The filter keeps the order, every point with start <= ts <= end as often as it
      is there, and no other. */
  lemma {:induction false} FilterExactly(ps: seq<Point>, start: Word, end: Word)
    ensures Subseq(Filter(ps, start, end), ps)
    ensures forall p: Point ::
              multiset(Filter(ps, start, end))[p] == if start <= p.ts && p.ts <= end then multiset(ps)[p] else 0
  {
    if ps != [] {
      var init, last := ps[..|ps| - 1], ps[|ps| - 1];
      assert ps == init + [last];
      FilterExactly(init, start, end);
      SubseqLast(Filter(init, start, end), init, last);
      assert Filter(init, start, end) + [] == Filter(init, start, end);
    }
  }

  lemma GatheredFound(dir: Dir, es: seq<IndexEntry>, e: IndexEntry, start: Word, end: Word)
    ensures Gathered(dir, Found(es + [e], start, end))
         == Gathered(dir, Found(es, start, end))
             + if RangesMeet(e.start, e.end, start, end) then ChunkContents(dir, e.name) else []
  {
    hide ChunkContents;
    assert (es + [e])[..|es|] == es;
    var names := Found(es, start, end);
    assert (names + [e.name])[..|names|] == names && names + [] == names;
  }

  /** Every point of an indexed chunk lies between the times its entry records. */
  ghost predicate Spanned(dir: Dir, es: seq<IndexEntry>) {
    forall e, p | e in es && p in ChunkContents(dir, e.name) :: InRange(p, e.start, e.end)
  }

  lemma {:induction false} PruningKeeps(dir: Dir, es: seq<IndexEntry>, start: Word, end: Word)
    requires Spanned(dir, es)
    ensures Filter(Gathered(dir, Found(es, start, end)), start, end) == Filter(Committed(dir, es), start, end)
  {
    hide ChunkContents, Filter;
    if es != [] {
      var init, e := es[..|es| - 1], es[|es| - 1];
      assert es == init + [e] && e in es;
      PruningKeeps(dir, init, start, end);
      GatheredFound(dir, init, e, start, end);
      FilterConcat(Gathered(dir, Found(init, start, end)), ChunkContents(dir, e.name), start, end);
      FilterConcat(Committed(dir, init), ChunkContents(dir, e.name), start, end);
      if !RangesMeet(e.start, e.end, start, end) {
        FilterNone(ChunkContents(dir, e.name), start, end);
        assert Gathered(dir, Found(es, start, end)) == Gathered(dir, Found(init, start, end));
      }
    }
  }

  /** Pruning returns no more than the plain filter, and less when a pruned
      chunk holds a point in range. */
  lemma {:induction false} PruningDrops(dir: Dir, es: seq<IndexEntry>, start: Word, end: Word)
    ensures |Filter(Gathered(dir, Found(es, start, end)), start, end)| <= |Filter(Committed(dir, es), start, end)|
    ensures (exists e, p ::
               e in es && !RangesMeet(e.start, e.end, start, end) && p in ChunkContents(dir, e.name)
                   && InRange(p, start, end)) ==>
              |Filter(Gathered(dir, Found(es, start, end)), start, end)| < |Filter(Committed(dir, es), start, end)|
  {
    hide ChunkContents, Filter;
    if es != [] {
      var init, e := es[..|es| - 1], es[|es| - 1];
      assert es == init + [e];
      PruningDrops(dir, init, start, end);
      GatheredFound(dir, init, e, start, end);
      FilterConcat(Gathered(dir, Found(init, start, end)), ChunkContents(dir, e.name), start, end);
      FilterConcat(Committed(dir, init), ChunkContents(dir, e.name), start, end);
      FilterNone(ChunkContents(dir, e.name), start, end);
      if !RangesMeet(e.start, e.end, start, end) {
        assert Gathered(dir, Found(es, start, end)) == Gathered(dir, Found(init, start, end));
      }
    }
  }

  /** Raw queries of every range answer with exactly the stored points in that
      range, in order, if and only if every chunk's points lie between the times
      its index entry records. */
  lemma RawExactIffSpanned(dir: Dir, es: seq<IndexEntry>, buffer: seq<Point>)
    ensures (forall start, end :: Raw(dir, es, buffer, start, end) == Filter(Committed(dir, es) + buffer, start, end))
        <==> Spanned(dir, es)
  {
    hide ChunkContents, Filter, Found, Gathered, Committed;
    forall start, end
      ensures Filter(Gathered(dir, Found(es, start, end)) + buffer, start, end)
           == Filter(Gathered(dir, Found(es, start, end)), start, end) + Filter(buffer, start, end)
      ensures Filter(Committed(dir, es) + buffer, start, end)
           == Filter(Committed(dir, es), start, end) + Filter(buffer, start, end)
      ensures Spanned(dir, es) ==> Raw(dir, es, buffer, start, end) == Filter(Committed(dir, es) + buffer, start, end)
    {
      FilterConcat(Gathered(dir, Found(es, start, end)), buffer, start, end);
      FilterConcat(Committed(dir, es), buffer, start, end);
      if Spanned(dir, es) {
        PruningKeeps(dir, es, start, end);
      }
    }
    if !Spanned(dir, es) {
      var e, p :| e in es && p in ChunkContents(dir, e.name) && !InRange(p, e.start, e.end);
      PruningDrops(dir, es, p.ts, p.ts);
      assert !RangesMeet(e.start, e.end, p.ts, p.ts) && InRange(p, p.ts, p.ts);
      assert Raw(dir, es, buffer, p.ts, p.ts) != Filter(Committed(dir, es) + buffer, p.ts, p.ts);
    }
  }

  // ---------------------------------------------------------------- index entries describe their chunks

  /** Every entry is what a scan of its chunk's header would make. */
  ghost predicate Described(dir: Dir, es: seq<IndexEntry>) {
    forall e | e in es :: ScanEntry(dir, e.name) == Some(e)
  }

  ghost predicate WellDescribed(s: State) {
    if s.pc.Down? then forall es | Rebuilt(s.dir, es) :: Described(s.dir, es)
    else Described(s.dir, s.mem.index)
  }

  ghost predicate SameChunkFiles(dir: Dir, dir': Dir) {
    forall n | IsChunkName(n) :: (n in dir <==> n in dir') && (n in dir ==> dir[n] == dir'[n])
  }

  lemma DescribedFrame(dir: Dir, dir': Dir, es: seq<IndexEntry>)
    requires Described(dir, es) && SameChunkFiles(dir, dir')
    ensures Described(dir', es)
  {
    hide MatchChunkName, ReadHeader;
    forall e | e in es ensures ScanEntry(dir', e.name) == Some(e) {
      assert IsChunkName(e.name);
    }
  }

  lemma SameChunksFiles(dir: Dir, dir': Dir)
    requires SameChunks(dir, dir')
    ensures SameChunkFiles(dir, dir')
  {
    hide MatchChunkName;
  }

  lemma DescribedAdvance(s: State)
    requires Running(s) && !s.pc.Down? && Described(s.dir, s.mem.index) && RotatesSafely(s, Advance, MAX_CHUNK_ID)
    ensures Described(AdvanceStep(s).dir, AdvanceStep(s).mem.index)
  {
    hide Running, AdvanceStep;
    match s.pc
    case Idle => AdvanceIdle(s);
    case Logging(p) => DescribedLogged(s);
    case Replacing(_, ToChunk, Rename) => DescribedChunkRename(s);
    case Replacing(_, ToIndex, Rename) => DescribedIndexRename(s);
    case Replacing(_, _, _) => DescribedTmp(s);
    case Truncating(_) => DescribedTruncate(s);
  }

  lemma DescribedLogged(s: State)
    requires Running(s) && s.pc.Logging? && Described(s.dir, s.mem.index)
    ensures Described(AdvanceStep(s).dir, AdvanceStep(s).mem.index)
  {
    hide Described, AdvanceStep, Consistent;
    LoggedState(s);
    WalGrows(s, Record(s.pc.p));
    SameChunksFiles(s.dir, AdvanceStep(s).dir);
    DescribedFrame(s.dir, AdvanceStep(s).dir, s.mem.index);
  }

  lemma DescribedTmp(s: State)
    requires Running(s) && s.pc.Replacing? && s.pc.stage != Rename && Described(s.dir, s.mem.index)
    ensures Described(AdvanceStep(s).dir, AdvanceStep(s).mem.index)
  {
    hide Described, Consistent;
    TmpPhase(s);
    SameChunksFiles(s.dir, AdvanceStep(s).dir);
    DescribedFrame(s.dir, AdvanceStep(s).dir, s.mem.index);
  }

  lemma DescribedTruncate(s: State)
    requires Running(s) && s.pc.Truncating? && Described(s.dir, s.mem.index)
    ensures Described(AdvanceStep(s).dir, AdvanceStep(s).mem.index)
  {
    hide Described, Consistent, SameChunks, SameChunkFiles, TruncateWal;
    TruncateStep(s);
    SameChunksFiles(s.dir, AdvanceStep(s).dir);
    DescribedFrame(s.dir, AdvanceStep(s).dir, s.mem.index);
  }

  /** The new chunk has a name no entry has. */
  lemma DescribedChunkRename(s: State)
    requires Running(s) && s.pc.Replacing? && s.pc.target == ToChunk && s.pc.stage == Rename
             && Described(s.dir, s.mem.index)
    ensures Described(AdvanceStep(s).dir, AdvanceStep(s).mem.index)
  {
    hide MatchChunkName, Consistent, LengthsFit, ChunkBytes, ToBytes, IndexText, ChunkName, RenameFile;
    ChunkRenamedDir(s);
    var s' := AdvanceStep(s);
    forall e | e in s.mem.index ensures ScanEntry(s'.dir, e.name) == Some(e) {
      assert IsChunkName(e.name) && e.name != s.pc.r.entry.name;
    }
  }

  lemma DescribedIndexRename(s: State)
    requires Running(s) && s.pc.Replacing? && s.pc.target == ToIndex && s.pc.stage == Rename
             && Described(s.dir, s.mem.index)
    ensures Described(AdvanceStep(s).dir, AdvanceStep(s).mem.index)
  {
    hide ScanEntry, Consistent, LengthsFit, ChunkBytes, IndexText;
    IndexRenamedDir(s);
    NewEntryScanned(s);
    DescribedFrame(s.dir, AdvanceStep(s).dir, s.mem.index + [s.pc.r.entry]);
  }

  lemma DescribedPartial(s: State, n: nat)
    requires Running(s) && Described(s.dir, s.mem.index)
    ensures Described(Partial(s, n), s.mem.index)
  {
    hide Described, Consistent, SameChunks, SameChunkFiles, Partial;
    PartialStep(s, n);
    SameChunksFiles(s.dir, Partial(s, n));
    DescribedFrame(s.dir, Partial(s, n), s.mem.index);
  }

  /** After a crash, an opening finds the memory index or scans the headers. */
  lemma DescribedCrash(s: State, n: nat)
    requires Running(s) && Described(s.dir, s.mem.index)
    ensures forall es | Rebuilt(Partial(s, n), es) :: Described(Partial(s, n), es)
  {
    hide Partial, ChunksOk, LoadIndexFile, PcOk;
    PartialStep(s, n);
    DescribedPartial(s, n);
  }

  lemma DescribedOpen(s: State, entries: seq<IndexEntry>, rewrite: Rewrite, up: bool)
    requires s.pc.Down? && WellDescribed(s) && Openable(s) && Rebuilt(s.dir, entries)
    ensures WellDescribed(OpenStep(s, entries, rewrite, up))
  {
    hide ChunksOk, LoadIndexFile, RewriteIndex;
    var s' := OpenStep(s, entries, rewrite, up);
    if LoadIndexFile(s.dir).None? {
      RewrittenDir(s.dir, entries, rewrite);
      assert SameChunkFiles(s.dir, s'.dir) by { RewrittenSameFiles(s.dir, entries, rewrite); }
      DescribedFrame(s.dir, s'.dir, entries);
      forall es | Rebuilt(s'.dir, es) ensures Described(s'.dir, es) {
        if rewrite.Replaced? {
          assert es == entries;
        } else {
          RebuiltSame(s.dir, s'.dir, es);
          DescribedFrame(s.dir, s'.dir, es);
        }
      }
    }
  }

  lemma RewrittenSameFiles(dir: Dir, scan: seq<IndexEntry>, rewrite: Rewrite)
    requires forall e | e in scan :: IsChunkName(e.name)
    ensures SameChunkFiles(dir, RewriteIndex(dir, scan, rewrite))
  {
    hide RewriteIndex, MatchChunkName;
    RewrittenDir(dir, scan, rewrite);
  }

  lemma DescribedStep(s: State, e: Event)
    requires Inv(s) && WellDescribed(s) && RotatesSafely(s, e, MAX_CHUNK_ID)
    ensures WellDescribed(Next(s, e))
  {
    hide Running, Openable, AdvanceStep, OpenStep, BeginRotation, Rebuilt, Described, Partial, RotatesSafely;
    match e
    case Submit(p) =>
    case Flush => if s.pc.Idle? && s.mem.buffer != [] { BeginKeepsIndex(s); }
    case Advance => if s.pc.Down? { AdvanceKinds(s); } else { DescribedAdvance(s); AdvanceStaysUp(s); }
    case Fail(n) => if s.pc.Down? { AdvanceKinds(s); } else { DescribedPartial(s, n); }
    case Crash(n) => if !s.pc.Down? { DescribedCrash(s, n); }
    case Open(scan, rewrite, up) =>
      if s.pc.Down? && Rebuilt(s.dir, if LoadIndexFile(s.dir).Some? then LoadIndexFile(s.dir).value else scan) {
        OpenStepEntries(s, scan, rewrite, up);
        DescribedOpen(s, if LoadIndexFile(s.dir).Some? then LoadIndexFile(s.dir).value else scan, rewrite, up);
      }
  }

  lemma BeginKeepsIndex(s: State)
    requires s.mem.buffer != []
    ensures var s' := BeginRotation(s, None); s'.dir == s.dir && s'.mem.index == s.mem.index && !s'.pc.Down?
  {
  }

  /** In every run, crashes included, every index entry describes its chunk. */
  lemma {:induction false} DescribedRun(evs: seq<Event>)
    requires RotatesFairly(evs, MAX_CHUNK_ID)
    ensures WellDescribed(Run(FRESH, evs))
  {
    hide Next, RotatesSafely, WellDescribed, Inv;
    if evs == [] {
      assert WellDescribed(FRESH) by { FreshDescribed(); }
    } else {
      var before := evs[..|evs| - 1];
      DescribedRun(before);
      InvRun(before);
      DescribedStep(Run(FRESH, before), evs[|evs| - 1]);
    }
  }

  lemma FreshDescribed()
    ensures WellDescribed(FRESH)
  {
  }

  // ---------------------------------------------------------------- raw queries over runs

  ghost predicate Nondecreasing(ps: seq<Point>) {
    forall i, j | 0 <= i < j < |ps| :: ps[i].ts <= ps[j].ts
  }

  /** What a described entry says about the chunk it names: it records the ends and
      the length of the buffer the chunk was written from. */
  lemma EntryRange(s: State, e: IndexEntry)
    requires ChunksOk(s.dir, s.chunks) && ScanEntry(s.dir, e.name) == Some(e)
    ensures var b, ps := BufferOf(s.chunks, e.name), ChunkContents(s.dir, e.name);
            && b != [] && e == EntryOf(e.name, b) && e.count == |b| == |ps| && ps[0] == b[0]
            && (ps == b <==> InDomain(b)) && (Times(ps) == Times(b) <==> TimesInRange(Times(b)))
  {
    hide ChunkContents, WholeChunk, InDomain, TimesInRange, BufferOf, EntryOf, ScanEntry, MatchChunkName;
    EntryHeader(s, e);
    WholeChunkContents(s.dir, e.name, BufferOf(s.chunks, e.name));
  }

  /** The header of a whole chunk makes the entry of its buffer. */
  lemma EntryHeader(s: State, e: IndexEntry)
    requires ChunksOk(s.dir, s.chunks) && ScanEntry(s.dir, e.name) == Some(e)
    ensures var b := BufferOf(s.chunks, e.name);
            && e.name in s.dir && WholeChunk(s.dir[e.name], b)
            && b != [] && e == EntryOf(e.name, b) && e.count == |b|
  {
    hide ChunkBytes, LengthsFit, BufferOf, ReadHeader;
    var b := BufferOf(s.chunks, e.name);
    assert WholeChunk(s.dir[e.name], b);
    HeaderRoundTrip(b); CountFits(b);
  }

  /** In every run, crashes, failures and lossy rotations included: each index entry
      names a chunk with points and records the first and last time and the length of
      the buffer it was written from. A reader gets as many points, the first of them
      always, and this buffer exactly in the codec's domain. */
  lemma IndexDescribesChunks(evs: seq<Event>, e: IndexEntry)
    requires RotatesFairly(evs, MAX_CHUNK_ID) && !Run(FRESH, evs).pc.Down? && e in Run(FRESH, evs).mem.index
    ensures var b, ps := BufferOf(Run(FRESH, evs).chunks, e.name), ChunkContents(Run(FRESH, evs).dir, e.name);
            && b != [] && e.start == b[0].ts && e.end == b[|b| - 1].ts && e.count == |b| == |ps| && ps[0] == b[0]
            && (ps == b <==> InDomain(b)) && (Times(ps) == Times(b) <==> TimesInRange(Times(b)))
  {
    hide Run, RotatesFairly, ChunkContents, ScanEntry, ChunksOk, BufferOf, InDomain, TimesInRange;
    InvRun(evs); DescribedRun(evs);
    EntryRange(Run(FRESH, evs), e);
  }

  /** A chunk is a contiguous piece of what is committed. */
  lemma {:induction false} ChunkInside(dir: Dir, es: seq<IndexEntry>, e: IndexEntry) returns (from: nat)
    requires e in es
    ensures from + |ChunkContents(dir, e.name)| <= |Committed(dir, es)|
    ensures Committed(dir, es)[from..from + |ChunkContents(dir, e.name)|] == ChunkContents(dir, e.name)
  {
    hide ChunkContents;
    var init, last := es[..|es| - 1], es[|es| - 1];
    var a, c, n := Committed(dir, init), ChunkContents(dir, last.name), |ChunkContents(dir, e.name)|;
    assert Committed(dir, es) == a + c;
    if e == last {
      from := |a|;
      assert (a + c)[from..from + n] == c;
    } else {
      assert es == init + [last];
      from := ChunkInside(dir, init, e);
      assert (a + c)[from..from + n] == a[from..from + n];
    }
  }

  lemma NondecreasingSpanned(s: State)
    requires ChunksOk(s.dir, s.chunks) && Described(s.dir, s.mem.index) && Lossless(s)
    requires Nondecreasing(Committed(s.dir, s.mem.index))
    ensures Spanned(s.dir, s.mem.index)
  {
    hide ScanEntry, ChunkContents, ChunksOk, Committed, BufferOf, InDomain, TimesInRange;
    var all := Committed(s.dir, s.mem.index);
    forall e, p | e in s.mem.index && p in ChunkContents(s.dir, e.name) ensures InRange(p, e.start, e.end) {
      var ps := ChunkContents(s.dir, e.name);
      EntryRange(s, e);
      var from := ChunkInside(s.dir, s.mem.index, e);
      var i :| 0 <= i < |ps| && ps[i] == p;
      assert ps[0] == all[from] && ps[i] == all[from + i] && ps[|ps| - 1] == all[from + |ps| - 1];
    }
  }

  /** No point lies outside the time of the first and this last time. */
  ghost predicate WithinEnds(ps: seq<Point>, end: Word) {
    forall p | p in ps :: ps[0].ts <= p.ts <= end
  }

  lemma SpannedByContents(s: State)
    requires ChunksOk(s.dir, s.chunks) && Described(s.dir, s.mem.index)
    ensures Spanned(s.dir, s.mem.index)
       <==> forall e | e in s.mem.index :: WithinEnds(ChunkContents(s.dir, e.name), e.end)
  {
    hide ScanEntry, ChunkContents, ChunksOk, BufferOf, InDomain, TimesInRange;
    forall e | e in s.mem.index
      ensures var ps := ChunkContents(s.dir, e.name); ps != [] && e.start == ps[0].ts
    {
      EntryRange(s, e);
    }
  }

  /** In every run, crashes, failures and lossy rotations included, raw queries of
      every range answer with exactly the visible points in that range, in order, if
      and only if no indexed chunk reads back a point outside the time of its first
      one and the last time that was written. */
  lemma RawQueryExactly(evs: seq<Event>)
    requires RotatesFairly(evs, MAX_CHUNK_ID) && !Run(FRESH, evs).pc.Down?
    ensures var s := Run(FRESH, evs);
            && ((forall start, end ::
                   Raw(s.dir, s.mem.index, s.mem.buffer, start, end) == Filter(Visible(s), start, end))
                <==> forall e | e in s.mem.index :: WithinEnds(ChunkContents(s.dir, e.name), e.end))
  {
    hide Run, RotatesFairly, Raw, Committed, Spanned, ChunkContents, ChunksOk, WithinEnds, Filter;
    var s := Run(FRESH, evs);
    InvRun(evs); DescribedRun(evs);
    SpannedByContents(s);
    RawExactIffSpanned(s.dir, s.mem.index, s.mem.buffer);
  }

  const LAST_TIME: Word := TWO_TO_64 - 1

  lemma {:induction false} WholeRange(ps: seq<Point>)
    ensures Filter(ps, 0, LAST_TIME) == ps
  {
    if ps != [] {
      WholeRange(ps[..|ps| - 1]);
      assert ps == ps[..|ps| - 1] + [ps[|ps| - 1]];
    }
  }

  /** The range of all times prunes no chunk. */
  lemma {:induction false} WholeRangeGathers(dir: Dir, es: seq<IndexEntry>)
    ensures Gathered(dir, Found(es, 0, LAST_TIME)) == Committed(dir, es)
  {
    hide ChunkContents;
    if es != [] {
      var init, e := es[..|es| - 1], es[|es| - 1];
      assert es == init + [e];
      WholeRangeGathers(dir, init);
      GatheredFound(dir, init, e, 0, LAST_TIME);
    }
  }

  lemma WholeRangeVisible(s: State)
    ensures Raw(s.dir, s.mem.index, s.mem.buffer, 0, LAST_TIME) == Visible(s)
  {
    hide Found, Gathered, Committed;
    WholeRangeGathers(s.dir, s.mem.index);
    WholeRange(Visible(s));
  }

  /** In every run without crashes and with nondecreasing timestamps, whatever fails:
      raw queries of every range return exactly the logged writes with
      start <= ts <= end, in order, if and only if every indexed chunk was written
      from a buffer in the codec's domain. */
  lemma RawQueryIsFilter(evs: seq<Event>)
    requires RotatesFairly(evs, MAX_CHUNK_ID) && CrashFree(evs) && Nondecreasing(Run(FRESH, evs).logged)
    ensures var s := Run(FRESH, evs);
            && ((forall start, end ::
                   Raw(s.dir, s.mem.index, s.mem.buffer, start, end) == Filter(s.logged, start, end))
                <==> Lossless(s))
  {
    hide Run, RotatesFairly, Raw, Committed, Spanned, Kept, Lossless, TimesLossless, ValuesLossless, Filter;
    var s := Run(FRESH, evs);
    InvRun(evs); DescribedRun(evs); CrashFreeOrder(evs);
    WholeRangeVisible(s); WholeRange(s.logged);
    if Lossless(s) {
      var all := Committed(s.dir, s.mem.index);
      assert all == s.logged[..|all|];
      NondecreasingSpanned(s);
      RawExactIffSpanned(s.dir, s.mem.index, s.mem.buffer);
    }
  }
}
