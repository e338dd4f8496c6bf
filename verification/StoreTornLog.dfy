/** What interrupted log appends cost. Recovery drops a torn record but leaves its
    bytes in the log, and the next append lands behind them. */
module StoreTornLog {
  import opened Words
  import opened Wrappers
  import opened ChunkFile
  import opened Wal
  import opened IndexFile
  import opened StoreMachine
  import opened StoreInvariant
  import opened StoreSteps
  import opened StoreDurability
  import opened StoreTheorems
  import opened StoreLimits

  /** Every log append that fails, or that a crash cuts short, puts one of these
      numbers of bytes into the log. */
  ghost predicate AppendsLeave(evs: seq<Event>, lengths: set<nat>) {
    evs != [] ==>
      var before, e := evs[..|evs| - 1], evs[|evs| - 1];
      AppendsLeave(before, lengths) && LeavesOneOf(Run(FRESH, before), e, lengths)
  }

  predicate LeavesOneOf(s: State, e: Event, lengths: set<nat>) {
    s.pc.Logging? && (e.Fail? || e.Crash?) ==> e.n in lengths
  }

  predicate Tears(n: nat) {
    0 < n < RECORD_SIZE
  }

  // ---------------------------------------------------------------- whole records

  predicate WholeRecords(s: State) {
    |WalOf(s.dir)| % RECORD_SIZE == 0
  }

  lemma WholeAfterAdvance(s: State)
    requires Running(s) && !s.pc.Down? && WholeRecords(s)
    ensures WholeRecords(AdvanceStep(s))
  {
    hide Running, AdvanceStep, WalOf;
    match s.pc
    case Idle => AdvanceIdle(s);
    case Logging(p) => LoggedState(s); RunningConsistent(s); WalGrows(s, Record(p));
    case Replacing(_, ToChunk, Rename) => ChunkRename(s);
    case Replacing(_, ToIndex, Rename) => IndexRename(s);
    case Replacing(_, _, _) => TmpPhase(s);
    case Truncating(_) => TruncateStep(s);
  }

  lemma WholeAfterOpen(s: State, scan: seq<IndexEntry>, rewrite: Rewrite, up: bool)
    requires Openable(s) && WholeRecords(s)
    requires Rebuilt(s.dir, if LoadIndexFile(s.dir).Some? then LoadIndexFile(s.dir).value else scan)
    ensures WholeRecords(OpenStep(s, scan, rewrite, up))
  {
    hide WalOf, Rebuilt, LoadIndexFile, Recovered, MaxID;
    var entries := if LoadIndexFile(s.dir).Some? then LoadIndexFile(s.dir).value else scan;
    var dir := OpenedDir(s, entries, rewrite);
  }

  lemma WholeStep(s: State, e: Event, lengths: set<nat>)
    requires Inv(s) && WholeRecords(s) && LeavesOneOf(s, e, lengths) && forall n | n in lengths :: !Tears(n)
    ensures WholeRecords(Next(s, e))
  {
    hide Running, Openable, AdvanceStep, OpenStep, Partial, WalOf, Rebuilt, LoadIndexFile;
    match e
    case Submit(_) =>
    case Flush => if s.pc.Idle? && s.mem.buffer != [] { BeginKeeps(s); }
    case Advance => if s.pc.Down? { AdvanceKinds(s); } else { WholeAfterAdvance(s); }
    case Fail(n) => if s.pc.Down? { AdvanceKinds(s); } else { PartialStep(s, n); }
    case Crash(n) => if !s.pc.Down? { PartialStep(s, n); }
    case Open(scan, rewrite, up) =>
      if s.pc.Down? && Rebuilt(s.dir, if LoadIndexFile(s.dir).Some? then LoadIndexFile(s.dir).value else scan) {
        WholeAfterOpen(s, scan, rewrite, up);
      }
  }

  /** If no append is torn, the log is in whole records all along. */
  lemma {:induction false} WholeRun(evs: seq<Event>, lengths: set<nat>)
    requires RotatesFairly(evs, MAX_CHUNK_ID) && AppendsLeave(evs, lengths) && forall n | n in lengths :: !Tears(n)
    ensures WholeRecords(Run(FRESH, evs)) && AppendsFairly(evs)
  {
    hide Inv, Next, RotatesSafely, LeavesOneOf, Tears;
    if evs != [] {
      var before := evs[..|evs| - 1];
      WholeRun(before, lengths);
      InvRun(before);
      WholeStep(Run(FRESH, before), evs[|evs| - 1], lengths);
    }
  }

  // ---------------------------------------------------------------- a run with a torn record

  ghost predicate TornRun(evs: seq<Event>, n: nat) {
    RotatesFairly(evs, MAX_CHUNK_ID) && RotatesLosslessly(evs) && AppendsLeave(evs, {n})
  }

  lemma Then(evs: seq<Event>, e: Event, n: nat) returns (evs': seq<Event>)
    requires TornRun(evs, n) && LeavesOneOf(Run(FRESH, evs), e, {n})
    requires RotatesSafely(Run(FRESH, evs), e, MAX_CHUNK_ID) && RotatesInDomain(Run(FRESH, evs), e)
    ensures evs' == evs + [e] && TornRun(evs', n) && Run(FRESH, evs') == Next(Run(FRESH, evs), e)
  {
    evs' := evs + [e];
    assert evs'[..|evs'| - 1] == evs;
  }

  lemma ScanOfLogOnly(log: seq<Byte>)
    ensures LoadIndexFile(map[WAL_NAME := log]) == None
    ensures IsScan(map[WAL_NAME := log], [])
  {
    hide MatchChunkName, ReadHeader;
    NameFacts(WAL_NAME);
    forall name | name in map[WAL_NAME := log] ensures ScanEntry(map[WAL_NAME := log], name).None? {
      NameFacts(name);
    }
  }

  lemma OneRecord(log: seq<Byte>)
    requires RECORD_SIZE <= |log| < 2 * RECORD_SIZE
    ensures |Recovered(log)| == 1
  {
  }

  lemma NothingTorn(n: nat)
    ensures TornRun([], n) && Run(FRESH, []) == FRESH
  {
  }

  /** A submitted point, then a crash that leaves n bytes of its record. */
  lemma TearLog(p: Point, n: nat) returns (evs: seq<Event>)
    requires Tears(n)
    ensures evs == [Submit(p), Crash(n), Open([], Untouched, true)] && TornRun(evs, n)
    ensures var torn := Record(p)[..n];
            Run(FRESH, evs) == State(map[WAL_NAME := torn], Mem([], 0, []), Idle, [p], [], [], map[])
  {
    hide Record, LoadIndexFile, IsScan, TornRun, Run;
    var torn := Record(p)[..n];
    ScanOfLogOnly(torn);
    NothingTorn(n);
    assert [] + torn == torn && [] + [p] == [p] && Recovered(torn) == [];
    evs := Then([], Submit(p), n);
    evs := Then(evs, Crash(n), n);
    evs := Then(evs, Open([], Untouched, true), n);
  }

  /** Another point is logged behind the torn bytes and acknowledged. */
  lemma LogBehindTear(evs: seq<Event>, torn: seq<Byte>, p: Point, q: Point, n: nat) returns (evs': seq<Event>)
    requires TornRun(evs, n)
             && Run(FRESH, evs) == State(map[WAL_NAME := torn], Mem([], 0, []), Idle, [p], [], [], map[])
    ensures evs' == evs + [Submit(q), Advance] && TornRun(evs', n)
    ensures Run(FRESH, evs') == State(map[WAL_NAME := torn + Record(q)], Mem([q], 0, []), Idle, [p, q], [q], [q], map[])
  {
    hide Record, Run, ShouldRotate, TornRun, LengthsFit;
    SingleFits(q);
    assert [] + [q] == [q] && [p] + [q] == [p, q];
    evs' := Then(evs, Submit(q), n);
    evs' := Then(evs', Advance, n);
  }

  /** The store is opened once more after a crash. */
  lemma ReopenLogOnly(evs: seq<Event>, log: seq<Byte>, p: Point, q: Point, n: nat) returns (evs': seq<Event>)
    requires TornRun(evs, n)
             && Run(FRESH, evs) == State(map[WAL_NAME := log], Mem([q], 0, []), Idle, [p, q], [q], [q], map[])
    ensures evs' == evs + [Crash(0), Open([], Untouched, true)] && TornRun(evs', n)
    ensures Run(FRESH, evs') == State(map[WAL_NAME := log], Mem(Recovered(log), 0, []), Idle, [p, q], [q], [q], map[])
  {
    hide LoadIndexFile, IsScan, Run, Recovered, TornRun;
    ScanOfLogOnly(log);
    evs' := Then(evs, Crash(0), n);
    evs' := Then(evs', Open([], Untouched, true), n);
  }

  /** A log append cut off after n bytes, wherever that is within the record, is
      dropped by recovery but left in the file; the next acknowledged point is
      appended behind it and is lost, although no rotation ever starts. */
  lemma TornRecordLoses(n: nat) returns (p: Point, q: Point, evs: seq<Event>)
    requires Tears(n)
    ensures evs == [Submit(p), Crash(n), Open([], Untouched, true)]
                 + [Submit(q), Advance, Crash(0), Open([], Untouched, true)]
    ensures RotatesFairly(evs, MAX_CHUNK_ID) && RotatesLosslessly(evs) && AppendsLeave(evs, {n})
    ensures !NothingLost(Run(FRESH, evs))
  {
    hide Record, Recovered, Run, Misread;
    p := Point(0, 0);
    var torn := Record(p)[..n];
    q := Misread(torn[0]);
    evs := TearLog(p, n);
    evs := LogBehindTear(evs, torn, p, q, n);
    evs := ReopenLogOnly(evs, torn + Record(q), p, q, n);
    MisreadAfterTear(torn);
    OneRecord(torn + Record(q));
    var s := Run(FRESH, evs);
    assert Visible(s) == [] + Recovered(torn + Record(q));
    LostPoint(s, q);
  }

  lemma {:induction false} LeavesMore(evs: seq<Event>, n: nat, lengths: set<nat>)
    requires AppendsLeave(evs, {n}) && n in lengths
    ensures AppendsLeave(evs, lengths)
  {
    hide Run;
    if evs != [] { LeavesMore(evs[..|evs| - 1], n, lengths); }
  }

  /** Runs whose interrupted log appends leave these numbers of bytes, with
      appends, crashes and openings to follow, lose no acknowledged point exactly
      when none of the numbers tears a record. */
  lemma SafeExactlyUntorn(lengths: set<nat>)
    ensures (forall evs | RotatesFairly(evs, MAX_CHUNK_ID) && RotatesLosslessly(evs) && AppendsLeave(evs, lengths) ::
               NothingLost(Run(FRESH, evs)))
       <==> forall n | n in lengths :: !Tears(n)
  {
    hide RotatesFairly, RotatesLosslessly, AppendsLeave, AppendsFairly, Run, NothingLost, Tears;
    if forall n | n in lengths :: !Tears(n) {
      forall evs | RotatesFairly(evs, MAX_CHUNK_ID) && RotatesLosslessly(evs) && AppendsLeave(evs, lengths)
        ensures NothingLost(Run(FRESH, evs))
      {
        WholeRun(evs, lengths);
        NothingLostInDomain(evs);
      }
    } else {
      var n :| n in lengths && Tears(n);
      var p, q, evs := TornRecordLoses(n);
      LeavesMore(evs, n, lengths);
    }
  }
}
