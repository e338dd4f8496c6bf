/** Exactly which crashes double points, in runs without failures: every crash in
    one of the two windows, and no other. */
module StoreDoubling {
  import opened Words
  import opened Wrappers
  import opened ChunkFile
  import opened Wal
  import opened IndexFile
  import opened StoreMachine
  import opened StoreInvariant
  import opened StoreSteps
  import opened StoreDurability
  import opened StoreTheorems
  import opened StoreCalm

  // ---------------------------------------------------------------- the log in the first window

  /** While the log is to be truncated, it still holds the rotated points, and
      index.dat is the new index. */
  ghost predicate Superseded(s: State) {
    s.pc.Truncating? ==> Recovered(WalOf(s.dir)) != [] && LoadIndexFile(s.dir) == Some(s.mem.index)
  }

  lemma SupersededAdvance(s: State)
    requires Running(s) && Once(s)
    ensures Superseded(AdvanceStep(s))
  {
    hide Committed, Recovered;
    if s.pc.Replacing? && s.pc.target == ToIndex && s.pc.stage == Rename {
      IndexRename(s);
    } else if AdvanceStep(s).pc.Truncating? {
      TruncatingNext(s);
    }
  }

  lemma TruncatingNext(s: State)
    requires Running(s) && AdvanceStep(s).pc.Truncating?
    ensures s.pc.Replacing? && s.pc.target == ToIndex && s.pc.stage == Rename
  {
    hide Consistent, ShouldRotate, Record, RenameFile;
  }

  lemma SupersededStep(s: State, e: Event)
    requires Inv(s) && Superseded(s) && Once(s) && !e.Fail?
    ensures Superseded(Next(s, e))
  {
    hide Running, Once, AdvanceStep, Openable, Rebuilt;
    match e
    case Advance => if s.pc.Down? { AdvanceKinds(s); } else { SupersededAdvance(s); }
    case Flush => if s.pc.Idle? && s.mem.buffer != [] { NotLogging(s); }
    case Submit(_) =>
    case Crash(_) =>
    case Open(_, _, _) =>
  }

  lemma {:induction false} SupersededRun(evs: seq<Event>)
    requires RotatesFairly(evs, MAX_CHUNK_ID) && AppendsFairly(evs) && Undoubled(evs)
    ensures Superseded(Run(FRESH, evs))
  {
    hide Once, Inv, Next, RotatesSafely;
    if evs == [] {
      assert Superseded(FRESH) by { FreshSuperseded(); }
    } else {
      var before := evs[..|evs| - 1];
      SupersededRun(before);
      OnceRun(before);
      InvRun(before);
      SupersededStep(Run(FRESH, before), evs[|evs| - 1]);
    }
  }

  lemma FreshSuperseded()
    ensures Superseded(FRESH)
  {
  }

  // ---------------------------------------------------------------- openings

  /** The process died while opening the store, any number of times. */
  ghost predicate Deaths(evs: seq<Event>) {
    forall e | e in evs :: e.Open? && !e.up
  }

  /** Whatever an opening makes of the directory later, it could have made of it
      at first, with the same points. */
  ghost predicate Follows(d: State, later: State) {
    && later.pc.Down? && Openable(later) && WalOf(later.dir) == WalOf(d.dir)
    && forall es | Rebuilt(later.dir, es) :: Rebuilt(d.dir, es) && Committed(later.dir, es) == Committed(d.dir, es)
  }

  lemma DeathFollows(d: State, entries: seq<IndexEntry>, rewrite: Rewrite)
    requires d.pc.Down? && Openable(d) && Rebuilt(d.dir, entries)
    ensures Follows(d, OpenStep(d, entries, rewrite, false))
  {
    hide ChunksOk, RewriteIndex, Committed;
    var dir := OpenedDir(d, entries, rewrite);
    LoadedEntries(d.dir, entries);
    OpenedDown(d, entries, rewrite);
    DeathDir(d, entries, rewrite);
    forall es | Rebuilt(dir, es) ensures Rebuilt(d.dir, es) && Committed(dir, es) == Committed(d.dir, es) {
      RebuiltAgain(d.dir, dir, entries, rewrite, es);
    }
  }

  lemma DeathDir(d: State, entries: seq<IndexEntry>, rewrite: Rewrite)
    requires Rebuilt(d.dir, entries)
    ensures var dir := if LoadIndexFile(d.dir).Some? then d.dir else RewriteIndex(d.dir, entries, rewrite);
            OpenStep(d, entries, rewrite, false) == d.(dir := dir)
  {
    hide RewriteIndex, IsScan, LoadIndex;
  }

  lemma DeathStep(d: State, later: State, e: Event)
    requires Follows(d, later) && e.Open? && !e.up
    ensures Follows(d, Next(later, e))
  {
    hide Rebuilt, Openable, Committed, LoadIndexFile;
    var entries := if LoadIndexFile(later.dir).Some? then LoadIndexFile(later.dir).value else e.scan;
    if Rebuilt(later.dir, entries) {
      DeathFollows(later, entries, e.rewrite);
      OpenStepEntries(later, e.scan, e.rewrite, false);
    }
  }

  lemma {:induction false} DeathsFollow(d: State, deaths: seq<Event>)
    requires d.pc.Down? && Openable(d) && Deaths(deaths)
    ensures Follows(d, Run(d, deaths))
  {
    hide Openable, Next, Rebuilt, Committed, WalOf;
    if deaths != [] {
      var init, e := deaths[..|deaths| - 1], deaths[|deaths| - 1];
      assert e in deaths && forall f | f in init :: f in deaths;
      DeathsFollow(d, init);
      DeathStep(d, Run(d, init), e);
    }
  }

  /** A successful opening shows the chunks of some entries a rebuild can find,
      and the replayed log. */
  lemma OpenedShows(d: State, later: State, scan: seq<IndexEntry>, rewrite: Rewrite) returns (es: seq<IndexEntry>)
    requires Follows(d, later) && !Next(later, Open(scan, rewrite, true)).pc.Down?
    ensures Rebuilt(d.dir, es)
    ensures Visible(Next(later, Open(scan, rewrite, true))) == Committed(d.dir, es) + Recovered(WalOf(d.dir))
  {
    hide ChunksOk, LoadIndexFile, Committed;
    es := if LoadIndexFile(later.dir).Some? then LoadIndexFile(later.dir).value else scan;
    var dir := OpenedDir(later, es, rewrite);
    LoadedEntries(later.dir, es);
  }

  // ---------------------------------------------------------------- one crash

  /** Outside the two windows the next opening shows what was visible, and a
      completed record. */
  lemma CrashKeeps(s: State, n: nat, es: seq<IndexEntry>)
    requires Running(s) && Once(s) && !s.pc.Down? && !DoublingCrash(s, Crash(n))
    requires Appends(s, Crash(n)) ==> |WalOf(s.dir)| % RECORD_SIZE == 0
    requires Rebuilt(Partial(s, n), es)
    ensures Committed(Partial(s, n), es) + Recovered(WalOf(Partial(s, n))) == Visible(s) + Completed(s, n)
  {
    hide Once, Committed, Recovered, WalOf, LoadIndexFile, Partial, PcOk, Rebuilt, IndexBacked, ChunksOk, IndexOk,
         NoChunks, SameChunks;
    OnceUp(s);
    PartialStep(s, n);
    PartialLog(s, n);
    IndexBounded(s);
    SameChunksRead(s.dir, Partial(s, n), s.mem.index);
    IndexAgreesAfter(s, n);
    RebuiltUndoubled(Partial(s, n), s.mem.index, es);
  }

  lemma OnceUp(s: State)
    requires Once(s) && !s.pc.Down?
    ensures LoadIndexFile(s.dir).None? ==>
              s.mem.index == [] && (NoChunks(s.dir) || (s.pc.Replacing? && s.pc.target == ToIndex))
    ensures !s.pc.Truncating? ==> Recovered(WalOf(s.dir)) == s.mem.buffer
  {
    hide Recovered, WalOf, LoadIndexFile, NoChunks;
  }

  lemma IndexAgreesAfter(s: State, n: nat)
    requires Running(s)
    ensures IndexBacked(Partial(s, n), s.mem.index)
  {
    hide ChunksOk, PcOk, Visible;
    PartialStep(s, n);
  }

  /** In a window it shows more: points of the chunk are in the log too. */
  lemma CrashDoubles(s: State, n: nat, es: seq<IndexEntry>)
    requires Running(s) && Once(s) && Superseded(s) && DoublingCrash(s, Crash(n))
    requires Rebuilt(Partial(s, n), es)
    ensures multiset(Visible(s)) < multiset(Committed(Partial(s, n), es) + Recovered(WalOf(Partial(s, n))))
  {
    hide Committed, Recovered, LoadIndexFile;
    if s.pc.Truncating? {
      MorePoints(Committed(s.dir, es), Recovered(WalOf(s.dir)));
      assert Visible(s) == Committed(s.dir, es);
    } else {
      FirstChunkDoubles(s, n, es);
    }
  }

  lemma MorePoints(ps: seq<Point>, qs: seq<Point>)
    ensures qs != [] ==> multiset(ps) < multiset(ps + qs)
  {
    if qs != [] {
      assert |multiset(ps + qs)| == |ps| + |qs|;
    }
  }

  lemma FirstChunkDoubles(s: State, n: nat, es: seq<IndexEntry>)
    requires Running(s) && Once(s) && s.pc.Replacing? && s.pc.target == ToIndex && LoadIndexFile(s.dir).None?
    requires Rebuilt(Partial(s, n), es)
    ensures multiset(Visible(s)) < multiset(Committed(Partial(s, n), es) + Recovered(WalOf(Partial(s, n))))
  {
    hide LoadIndexFile, Partial, NoChunks, LengthsFit, ChunkBytes, Committed, ChunksOk, PcOk, Once, Recovered, WalOf,
         SameChunks, Rebuilt, IndexBacked;
    var dir := Partial(s, n);
    OnceUp(s);
    PartialStep(s, n);
    PartialLog(s, n);
    IndexBounded(s);
    SameChunksRead(s.dir, dir, s.mem.index);
    NothingCommitted(s.dir);
    assert Visible(s) == s.mem.buffer;
    FirstChunkFound(s, dir, es);
    MorePoints(s.mem.buffer, Committed(dir, es));
    assert multiset(s.mem.buffer + Committed(dir, es)) == multiset(Committed(dir, es) + s.mem.buffer);
  }

  /** A scan finds the chunk that was renamed but not indexed. */
  lemma FirstChunkFound(s: State, dir: Dir, es: seq<IndexEntry>)
    requires Running(s) && s.pc.Replacing? && s.pc.target == ToIndex
    requires SameChunks(s.dir, dir) && LoadIndexFile(dir).None? && Rebuilt(dir, es)
    ensures Committed(dir, es) != []
  {
    hide MatchChunkName, LoadIndexFile, Consistent, ChunkBytes;
    var e := s.pc.r.entry;
    NewEntryScanned(s);
    assert IsChunkName(e.name) && ScanEntry(dir, e.name) == Some(e);
    WholeChunkContents(dir, e.name, s.mem.buffer);
    CommittedHas(dir, es, e);
  }

  lemma {:induction false} CommittedHas(dir: Dir, es: seq<IndexEntry>, e: IndexEntry)
    requires e in es && ChunkContents(dir, e.name) != []
    ensures Committed(dir, es) != []
  {
    hide ChunkContents;
    var init, last := es[..|es| - 1], es[|es| - 1];
    if e != last {
      assert es == init + [last];
      CommittedHas(dir, init, e);
    }
  }

  /** In every run without failures that has not doubled points yet, after every
      crash and any number of deaths while opening, a successful opening shows
      exactly what was visible, and the record the crash let complete, if and only
      if the crash fell outside the two windows. Inside them it shows more. */
  lemma DoublesExactlyInWindows(evs: seq<Event>, n: nat, deaths: seq<Event>, scan: seq<IndexEntry>, rewrite: Rewrite)
    requires RotatesFairly(evs, MAX_CHUNK_ID) && AppendsFairly(evs) && Undoubled(evs) && !Run(FRESH, evs).pc.Down?
    requires Appends(Run(FRESH, evs), Crash(n)) ==> |WalOf(Run(FRESH, evs).dir)| % RECORD_SIZE == 0
    requires Deaths(deaths)
    requires !Next(Run(Next(Run(FRESH, evs), Crash(n)), deaths), Open(scan, rewrite, true)).pc.Down?
    ensures var s := Run(FRESH, evs);
            var shown := Visible(Next(Run(Next(s, Crash(n)), deaths), Open(scan, rewrite, true)));
            && (multiset(shown) == multiset(Visible(s) + Completed(s, n)) <==> !DoublingCrash(s, Crash(n)))
            && (DoublingCrash(s, Crash(n)) ==> multiset(Visible(s)) < multiset(shown))
            && (!DoublingCrash(s, Crash(n)) ==> shown == Visible(s) + Completed(s, n))
  {
    hide Run, Running, Once, Openable, Visible, Follows, Rebuilt, Committed;
    var s := Run(FRESH, evs);
    var d := Next(s, Crash(n));
    InvRun(evs); OnceRun(evs); SupersededRun(evs);
    CrashStep(s, n);
    DeathsFollow(d, deaths);
    var es := OpenedShows(d, Run(d, deaths), scan, rewrite);
    if DoublingCrash(s, Crash(n)) {
      CrashDoubles(s, n, es);
      assert Visible(s) + [] == Visible(s);
    } else {
      CrashKeeps(s, n, es);
    }
  }
}
