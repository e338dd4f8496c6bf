/** Where the store's promise ends: the chunk file-name pattern knows four digits,
    and two crash windows store points twice. */
module StoreLimits {
  import opened Words
  import opened Wrappers
  import opened ChunkFile
  import opened CodecTheorems
  import opened Wal
  import opened IndexFile
  import opened StoreMachine
  import opened StoreInvariant
  import opened StoreSteps
  import opened StoreTheorems

  // ---------------------------------------------------------------- building runs

  lemma Extend(evs: seq<Event>, e: Event, limit: nat) returns (evs': seq<Event>)
    requires Fair(evs, limit) && RotatesSafely(Run(FRESH, evs), e, limit) && RotatesInDomain(Run(FRESH, evs), e)
    requires Appends(Run(FRESH, evs), e) ==> |WalOf(Run(FRESH, evs).dir)| % RECORD_SIZE == 0
    ensures evs' == evs + [e] && Fair(evs', limit) && Run(FRESH, evs') == Next(Run(FRESH, evs), e)
  {
    evs' := evs + [e];
    assert evs'[..|evs'| - 1] == evs;
  }

  lemma GeneratedName(id: nat, name: string)
    ensures ChunkName(id) != WAL_NAME && ChunkName(id) != INDEX_NAME && ChunkName(id) != name + TMP_SUFFIX
    ensures (id < TWO_TO_32 ==> CleanName(ChunkName(id))) && Ascii(ChunkName(id))
  {
    var n, t := ChunkName(id), name + TMP_SUFFIX;
    if id < TWO_TO_32 { ChunkNameClean(id); }
    assert n[0] == 'c' && WAL_NAME[0] == 'w' && INDEX_NAME[0] == 'i';
    assert n[|n| - 1] == 't' && t[|t| - 1] == 'p';
    DigitsAscii(FourDigits(id));
  }

  lemma SingleFits(p: Point)
    ensures LengthsFit([p]) && InDomain([p]) && !ShouldRotate([p])
  {
    LengthsFitBound([p]);
  }

  /** The chunk files of two directories agree but for one name. */
  ghost predicate OneChunkWritten(dir: Dir, dir': Dir, id: nat, bytes: seq<Byte>) {
    && ChunkName(id) in dir' && dir'[ChunkName(id)] == bytes
    && forall j: nat | j != id ::
         (ChunkName(j) in dir <==> ChunkName(j) in dir')
             && (ChunkName(j) in dir ==> dir[ChunkName(j)] == dir'[ChunkName(j)])
  }

  ghost predicate SameGenerated(dir: Dir, dir': Dir) {
    forall j: nat ::
      && (ChunkName(j) in dir <==> ChunkName(j) in dir')
      && (ChunkName(j) in dir ==> dir[ChunkName(j)] == dir'[ChunkName(j)])
  }

  /** Log one point into an empty buffer. */
  lemma {:induction false} LogOne(evs: seq<Event>, p: Point, limit: nat) returns (evs': seq<Event>)
    requires Fair(evs, limit) && Run(FRESH, evs).pc.Idle? && Run(FRESH, evs).mem.buffer == []
    requires |WalOf(Run(FRESH, evs).dir)| % RECORD_SIZE == 0
    ensures Fair(evs', limit)
    ensures var s, s' := Run(FRESH, evs), Run(FRESH, evs');
            && SameGenerated(s.dir, s'.dir) && s'.dir == AppendWal(s.dir, Record(p))
            && s'.submitted == s.submitted + [p]
            && s'.mem == s.mem.(buffer := [p]) && s'.pc == Idle && s'.acked == s.acked + [p]
  {
    hide Fair, Run, ChunkName, Record, LengthsFit;
    SingleFits(p);
    assert [] + [p] == [p];
    var evs1 := Extend(evs, Submit(p), limit);
    evs' := Extend(evs1, Advance, limit);
    forall j: nat ensures ChunkName(j) != WAL_NAME { GeneratedName(j, ""); }
  }

  /** The rotation of a one-point buffer. */
  function RotationOf(s: State, p: Point): Rotation {
    var entry := EntryOf(ChunkName(s.mem.nextID + 1), [p]);
    Rotation(None, entry, ChunkBytes([p]), ToBytes(IndexText(s.mem.index + [entry])))
  }

  /** Rotate a one-point buffer as far as the written temporary file. */
  lemma {:induction false} WriteTemp(evs: seq<Event>, p: Point, limit: nat) returns (evs': seq<Event>)
    requires Fair(evs, limit) && limit < TWO_TO_32 - 1
    requires var s := Run(FRESH, evs); s.pc.Idle? && s.mem.buffer == [p] && s.mem.nextID < limit
    ensures Fair(evs', limit)
    ensures var s, s' := Run(FRESH, evs), Run(FRESH, evs');
            var tmp := ChunkName(s.mem.nextID + 1) + TMP_SUFFIX;
            && s'.dir == s.dir[tmp := ChunkBytes([p])] && s'.submitted == s.submitted
            && s'.mem == s.mem.(nextID := s.mem.nextID + 1) && s'.acked == s.acked
            && s'.pc == Replacing(RotationOf(s, p), ToChunk, Rename)
  {
    hide Fair, Run, ChunkName, LengthsFit, ChunkBytes, IndexText, ToBytes, RotationOf, ShouldRotate, Record;
    SingleFits(p);
    var s := Run(FRESH, evs);
    assert BeginRotation(s, None)
        == s.(mem := s.mem.(nextID := s.mem.nextID + 1), pc := Replacing(RotationOf(s, p), ToChunk, Create)) by {
      SingleRotation(s, p);
    }
    SingleNames(s, p);
    evs' := Extend(evs, Flush, limit);
    evs' := Extend(evs', Advance, limit);
    evs' := Extend(evs', Advance, limit);
  }

  lemma SingleRotation(s: State, p: Point)
    requires s.mem.buffer == [p] && s.mem.nextID < TWO_TO_32 - 1
    ensures BeginRotation(s, None)
            == s.(mem := s.mem.(nextID := s.mem.nextID + 1), pc := Replacing(RotationOf(s, p), ToChunk, Create))
  {
    hide ChunkName, ChunkBytes, IndexText, ToBytes;
  }

  lemma SingleNames(s: State, p: Point)
    ensures TmpName(RotationOf(s, p), ToChunk) == ChunkName(s.mem.nextID + 1) + TMP_SUFFIX
    ensures DataOf(RotationOf(s, p), ToChunk) == ChunkBytes([p])
  {
    hide ChunkName, ChunkBytes, IndexText, ToBytes;
  }

  /** Rotate a one-point buffer as far as the renamed chunk. */
  lemma {:induction false} WriteChunk(evs: seq<Event>, p: Point, limit: nat) returns (evs': seq<Event>)
    requires Fair(evs, limit) && limit < TWO_TO_32 - 1
    requires var s := Run(FRESH, evs); s.pc.Idle? && s.mem.buffer == [p] && s.mem.nextID < limit
    ensures Fair(evs', limit)
    ensures var s, s' := Run(FRESH, evs), Run(FRESH, evs');
            && OneChunkWritten(s.dir, s'.dir, s.mem.nextID + 1, ChunkBytes([p])) && WalOf(s'.dir) == WalOf(s.dir)
            && s'.dir.Keys <= s.dir.Keys + {ChunkName(s.mem.nextID + 1)} && s'.submitted == s.submitted
            && s'.mem == s.mem.(nextID := s.mem.nextID + 1) && s'.acked == s.acked
            && s'.pc == Replacing(RotationOf(s, p), ToIndex, Create)
  {
    hide Fair, Run, ChunkName, LengthsFit, ChunkBytes, IndexText, ToBytes, ShouldRotate, Record, BeginRotation,
         OpenStep;
    var id := Run(FRESH, evs).mem.nextID + 1;
    var tmp := ChunkName(id) + TMP_SUFFIX;
    NameFacts(ChunkName(id));
    SingleNames(Run(FRESH, evs), p);
    evs' := WriteTemp(evs, p, limit);
    evs' := Extend(evs', Advance, limit);
    forall j: nat
      ensures ChunkName(j) != tmp && ChunkName(j) != WAL_NAME && (j != id ==> ChunkName(j) != ChunkName(id))
    {
      GeneratedName(j, ChunkName(id));
      if j != id && ChunkName(j) == ChunkName(id) { ChunkNameInjective(j, id); }
    }
  }

  /** Publish the chunk in index.dat. */
  lemma {:induction false} PublishIndex(evs: seq<Event>, limit: nat) returns (evs': seq<Event>)
    requires Fair(evs, limit)
    requires var s := Run(FRESH, evs); s.pc.Replacing? && s.pc.target == ToIndex && s.pc.stage == Create
    ensures Fair(evs', limit)
    ensures var s, s' := Run(FRESH, evs), Run(FRESH, evs');
            && SameGenerated(s.dir, s'.dir)
            && INDEX_NAME in s'.dir && s'.dir[INDEX_NAME] == s.pc.r.index
            && s'.mem == s.mem.(buffer := [], index := s.mem.index + [s.pc.r.entry])
            && s'.pc == Truncating(s.pc.r.ack) && s'.acked == s.acked
            && WalOf(s'.dir) == WalOf(s.dir) && s'.submitted == s.submitted
  {
    hide Fair, Run, ChunkName, ChunkBytes, IndexText, ToBytes, Record, ShouldRotate, BeginRotation;
    NameFacts(INDEX_NAME);
    evs' := Extend(evs, Advance, limit);
    evs' := Extend(evs', Advance, limit);
    evs' := Extend(evs', Advance, limit);
    forall j: nat ensures ChunkName(j) != INDEX_NAME && ChunkName(j) != INDEX_NAME + TMP_SUFFIX {
      GeneratedName(j, INDEX_NAME);
    }
  }

  /** Publish the chunk and truncate the log. */
  lemma {:induction false} Publish(evs: seq<Event>, limit: nat) returns (evs': seq<Event>)
    requires Fair(evs, limit)
    requires var s := Run(FRESH, evs);
             s.pc.Replacing? && s.pc.target == ToIndex && s.pc.stage == Create && s.pc.r.ack == None
    ensures Fair(evs', limit)
    ensures var s, s' := Run(FRESH, evs), Run(FRESH, evs');
            && SameGenerated(s.dir, s'.dir) && WalOf(s'.dir) == []
            && INDEX_NAME in s'.dir && s'.dir[INDEX_NAME] == s.pc.r.index
            && s'.mem == s.mem.(buffer := [], index := s.mem.index + [s.pc.r.entry])
            && s'.pc == Idle && s'.acked == s.acked
  {
    hide Fair, Run;
    evs' := PublishIndex(evs, limit);
    evs' := Extend(evs', Advance, limit);
    var s := Run(FRESH, evs);
    assert s.acked + [] == s.acked;
    forall j: nat ensures ChunkName(j) != WAL_NAME { GeneratedName(j, ""); }
  }

  /** One acknowledged point in a chunk of its own. */
  lemma {:induction false} Round(evs: seq<Event>, p: Point, limit: nat) returns (evs': seq<Event>)
    requires Fair(evs, limit) && limit < TWO_TO_32 - 1
    requires var s := Run(FRESH, evs);
             s.pc.Idle? && s.mem.buffer == [] && s.mem.nextID < limit && |WalOf(s.dir)| % RECORD_SIZE == 0
    ensures Fair(evs', limit)
    ensures var s, s' := Run(FRESH, evs), Run(FRESH, evs');
            var id := s.mem.nextID + 1;
            var index := s.mem.index + [EntryOf(ChunkName(id), [p])];
            && OneChunkWritten(s.dir, s'.dir, id, ChunkBytes([p])) && WalOf(s'.dir) == []
            && INDEX_NAME in s'.dir && s'.dir[INDEX_NAME] == ToBytes(IndexText(index))
            && s'.mem == Mem([], id, index) && s'.pc == Idle && s'.acked == s.acked + [p]
  {
    hide Fair, Run, ChunkName, ChunkBytes, IndexText;
    evs' := LogOne(evs, p, limit);
    evs' := WriteChunk(evs', p, limit);
    evs' := Publish(evs', limit);
  }

  // ---------------------------------------------------------------- ten thousand chunks

  /** The store after these points went through a chunk each. */
  ghost predicate Settled(s: State, pts: seq<Point>) {
    && s.pc == Idle && s.mem.buffer == [] && s.mem.nextID == |pts| == |s.mem.index| && s.acked == pts
    && WalOf(s.dir) == []
    && (pts != [] ==> INDEX_NAME in s.dir && s.dir[INDEX_NAME] == ToBytes(IndexText(s.mem.index)))
    && forall i: nat | i < |pts| :: OwnChunk(s, pts[i], i)
  }

  /** The i-th index entry names the chunk of this point alone. */
  ghost predicate OwnChunk(s: State, p: Point, i: nat) {
    && i < |s.mem.index| && s.mem.index[i].name == ChunkName(i + 1)
    && ChunkName(i + 1) in s.dir && s.dir[ChunkName(i + 1)] == ChunkBytes([p])
  }

  function Distinct(n: nat): (pts: seq<Point>)
    requires n <= 10_000
    ensures |pts| == n && forall i | 0 <= i < n :: pts[i] == Point(i, 0)
  {
    seq(n, i requires 0 <= i < n => Point(i, 0))
  }

  lemma {:induction false} Fill(n: nat) returns (evs: seq<Event>)
    requires n <= 10_000
    ensures Fair(evs, 10_000) && Settled(Run(FRESH, evs), Distinct(n))
  {
    hide ChunkName, ChunkBytes, IndexText, Next, RotatesSafely;
    if n == 0 {
      evs := [];
    } else {
      var evs0 := Fill(n - 1);
      evs := Round(evs0, Point(n - 1, 0), 10_000);
      SettledGrows(Run(FRESH, evs0), Run(FRESH, evs), Distinct(n - 1), Point(n - 1, 0));
      assert Distinct(n) == Distinct(n - 1) + [Point(n - 1, 0)];
    }
  }

  lemma SettledGrows(s: State, s': State, pts: seq<Point>, p: Point)
    requires Settled(s, pts)
    requires var index := s.mem.index + [EntryOf(ChunkName(|pts| + 1), [p])];
             && |pts| + 1 < TWO_TO_32
             && OneChunkWritten(s.dir, s'.dir, |pts| + 1, ChunkBytes([p])) && WalOf(s'.dir) == []
             && INDEX_NAME in s'.dir && s'.dir[INDEX_NAME] == ToBytes(IndexText(index))
             && s'.mem == Mem([], |pts| + 1, index) && s'.pc == Idle && s'.acked == s.acked + [p]
    ensures Settled(s', pts + [p])
  {
    hide ChunkName, ChunkBytes, IndexText, ToBytes;
    forall i: nat | i < |pts| + 1 ensures OwnChunk(s', (pts + [p])[i], i) {
      if i < |pts| {
        assert OwnChunk(s, pts[i], i) && i + 1 != |pts| + 1;
      }
    }
  }

  /** The largest id recovery sees among chunks named from, from + 1, ... */
  lemma {:induction false} MaxIDGenerated(es: seq<IndexEntry>, from: nat)
    requires from >= 1 && forall i | 0 <= i < |es| :: es[i].name == ChunkName(from + i)
    ensures MaxID(es) == if es == [] || from > MAX_CHUNK_ID then 0
                         else if from + |es| - 1 <= MAX_CHUNK_ID then from + |es| - 1 else MAX_CHUNK_ID
  {
    hide ChunkName, MatchChunkName;
    if es != [] {
      MaxIDGenerated(es[1..], from + 1);
      MatchGenerated(from);
    }
  }

  lemma SettledIndexLoads(s: State, pts: seq<Point>)
    requires Settled(s, pts) && pts != []
    ensures LoadIndexFile(s.dir) == Some(s.mem.index)
  {
    hide ChunkName, ChunkBytes;
    forall i | 0 <= i < |s.mem.index| ensures CleanName(s.mem.index[i].name) && Ascii(s.mem.index[i].name) {
      assert OwnChunk(s, pts[i], i);
      GeneratedName(i + 1, "");
    }
    NamesAscii(s.mem.index);
    AsciiBytes(IndexText(s.mem.index));
    IndexRoundTrip(s.mem.index);
  }

  lemma {:induction false} NamesAscii(es: seq<IndexEntry>)
    requires forall i | 0 <= i < |es| :: Ascii(es[i].name)
    ensures Ascii(IndexText(es))
  {
    if es != [] {
      NamesAscii(es[1..]);
      DigitsAscii(Decimal(es[0].start)); DigitsAscii(Decimal(es[0].end)); DigitsAscii(Decimal(es[0].count));
    }
  }

  /** A crash and a reopening of a settled store forget every id beyond 9999. */
  lemma {:induction false} Reopen(evs: seq<Event>, pts: seq<Point>, limit: nat) returns (evs': seq<Event>)
    requires Fair(evs, limit) && Settled(Run(FRESH, evs), pts) && |pts| >= MAX_CHUNK_ID
    ensures Fair(evs', limit)
    ensures var s, s' := Run(FRESH, evs), Run(FRESH, evs');
            && s'.dir == s.dir && s'.acked == s.acked && s'.pc == Idle
            && s'.mem == Mem([], MAX_CHUNK_ID, s.mem.index)
  {
    hide Fair, Run, ChunkName, IndexText, ChunkBytes, ToBytes, LoadIndexFile, MaxID;
    var s := Run(FRESH, evs);
    SettledIndexLoads(s, pts);
    forall i | 0 <= i < |s.mem.index| ensures s.mem.index[i].name == ChunkName(1 + i) {
      assert OwnChunk(s, pts[i], i);
    }
    MaxIDGenerated(s.mem.index, 1);
    assert Recovered([]) == [];
    evs' := Extend(evs, Crash(0), limit);
    evs' := Extend(evs', Open([], Untouched, true), limit);
  }

  lemma {:induction false} NotCommitted(dir: Dir, es: seq<IndexEntry>, p: Point)
    requires forall e | e in es :: p !in ChunkContents(dir, e.name)
    ensures p !in Committed(dir, es)
  {
    hide ChunkContents;
    if es != [] {
      assert es[|es| - 1] in es;
      NotCommitted(dir, es[..|es| - 1], p);
    }
  }

  lemma SingleContents(dir: Dir, name: string, p: Point)
    requires name in dir && dir[name] == ChunkBytes([p])
    ensures ChunkContents(dir, name) == [p]
  {
    hide ChunkBytes;
    SingleFits(p);
    WholeChunkContents(dir, name, [p]);
  }

  /** Overwriting the last chunk removes its point from every indexed chunk. */
  lemma OverwrittenPoint(s: State, pts: seq<Point>, last: Point, dir: Dir)
    requires Settled(s, pts) && pts != [] && last != pts[|pts| - 1]
    requires forall i | 0 <= i < |pts| - 1 :: pts[i] != pts[|pts| - 1]
    requires OneChunkWritten(s.dir, dir, |pts|, ChunkBytes([last]))
    ensures pts[|pts| - 1] !in Committed(dir, s.mem.index + [EntryOf(ChunkName(|pts|), [last])])
  {
    hide ChunkBytes, IndexText, ChunkContents;
    var lost, es := pts[|pts| - 1], s.mem.index + [EntryOf(ChunkName(|pts|), [last])];
    forall e | e in es ensures lost !in ChunkContents(dir, e.name) {
      var i :| 0 <= i < |es| && es[i] == e;
      assert i < |pts| ==> OwnChunk(s, pts[i], i);
      SingleContents(dir, e.name, if i < |pts| - 1 then pts[i] else last);
    }
    NotCommitted(dir, es, lost);
  }

  /** Ten thousand chunks, a crash, and one more rotation: the chunk of the
      ten-thousandth point is overwritten under the same name. */
  lemma TenThousandChunksLose() returns (evs: seq<Event>)
    ensures Fair(evs, 10_000) && !NothingLost(Run(FRESH, evs))
  {
    hide Fair, Run, ChunkName, IndexText, ChunkBytes, Committed;
    var pts, last := Distinct(10_000), Point(10_000, 0);
    var evs1 := Fill(10_000);
    var evs2 := Reopen(evs1, pts, 10_000);
    evs := Round(evs2, last, 10_000);
    var s1, s := Run(FRESH, evs1), Run(FRESH, evs);
    OverwrittenPoint(s1, pts, last, s.dir);
    assert s.mem.index == s1.mem.index + [EntryOf(ChunkName(10_000), [last])];
    SettledAcks(s1, pts);
    assert s.acked == pts + [last] && s.acked[9_999] == pts[9_999];
    LostPoint(s, pts[9_999]);
  }

  lemma SettledAcks(s: State, pts: seq<Point>)
    requires Settled(s, pts)
    ensures s.acked == pts
  {
  }

  lemma LostPoint(s: State, p: Point)
    requires p in s.acked && p !in Visible(s) && !s.pc.Down?
    ensures !NothingLost(s)
  {
    assert multiset(s.acked)[p] > 0 && multiset(Visible(s))[p] == 0;
  }

  lemma {:induction false} FairMonotone(evs: seq<Event>, low: nat, high: nat)
    requires low <= high && Fair(evs, low)
    ensures Fair(evs, high)
  {
    hide Run, LengthsFit, ShouldRotate;
    if evs != [] {
      FairMonotone(evs[..|evs| - 1], low, high);
    }
  }

  /** Runs that use chunk ids up to a limit never lose an acknowledged point
      exactly when the limit is at most 9999. */
  lemma SafeExactlyToFourDigits(limit: nat)
    ensures (forall evs | Fair(evs, limit) :: NothingLost(Run(FRESH, evs))) <==> limit <= 9_999
  {
    hide Fair, Run, NothingLost;
    if limit <= MAX_CHUNK_ID {
      forall evs | Fair(evs, limit) ensures NothingLost(Run(FRESH, evs)) {
        FairMonotone(evs, limit, MAX_CHUNK_ID);
        NothingLostInDomain(evs);
      }
    } else {
      var evs := TenThousandChunksLose();
      FairMonotone(evs, 10_000, limit);
    }
  }

  // ---------------------------------------------------------------- points stored twice

  /** A point is logged, and its rotation has put the first chunk in place. */
  lemma {:induction false} FirstChunk(p: Point) returns (evs: seq<Event>)
    ensures Fair(evs, MAX_CHUNK_ID)
    ensures var s := Run(FRESH, evs);
            && s.dir.Keys <= {WAL_NAME, ChunkName(1)} && Recovered(WalOf(s.dir)) == [p] && s.submitted == [p]
            && ChunkName(1) in s.dir && s.dir[ChunkName(1)] == ChunkBytes([p])
            && s.mem == Mem([p], 1, []) && s.pc == Replacing(RotationOf(FRESH, p), ToIndex, Create)
  {
    hide Fair, Run, ChunkName, ChunkBytes, Recovered;
    assert Fair([], MAX_CHUNK_ID) && Run(FRESH, []) == FRESH by { NothingRanFairly(); }
    evs := LogOne([], p, MAX_CHUNK_ID);
    evs := WriteChunk(evs, p, MAX_CHUNK_ID);
    assert [] + [p] == [p] && [] + Record(p) == Record(p);
    OneRecordLog(p);
  }

  lemma NothingRanFairly()
    ensures Fair([], MAX_CHUNK_ID) && Run(FRESH, []) == FRESH
  {
  }

  lemma OneRecordLog(p: Point)
    ensures Recovered(Record(p)) == [p]
  {
    AppendAligned([], p);
    assert [] + Record(p) == Record(p) && Recovered([]) + [p] == [p];
  }

  /** Opening with the first chunk indexed and the log not truncated. */
  lemma OpenedTwice(s: State, entry: IndexEntry, p: Point)
    requires s.pc.Down? && Rebuilt(s.dir, [entry])
    requires entry.name in s.dir && s.dir[entry.name] == ChunkBytes([p]) && Recovered(WalOf(s.dir)) == [p]
    ensures var s' := Next(s, Open([entry], Untouched, true)); s'.submitted == s.submitted && Visible(s') == [p, p]
  {
    hide IsScan, ChunkBytes, ChunkContents, MaxID, Recovered;
    SingleContents(s.dir, entry.name, p);
    assert Committed(s.dir, [entry]) == [p] by { assert [entry][..0] == []; }
    assert [p] + [p] == [p, p];
  }

  /** The one entry a header scan finds. */
  lemma FirstChunkScanned(dir: Dir, p: Point)
    requires dir.Keys <= {WAL_NAME, ChunkName(1)} && ChunkName(1) in dir && dir[ChunkName(1)] == ChunkBytes([p])
    ensures LoadIndexFile(dir) == None && IsScan(dir, [EntryOf(ChunkName(1), [p])])
  {
    hide ChunkBytes, ReadHeader, MatchChunkName, ChunkName;
    SingleFits(p); HeaderRoundTrip([p]);
    MatchGenerated(1); NameFacts(WAL_NAME); GeneratedName(1, "");
    forall name | name in dir && ScanEntry(dir, name).Some?
      ensures ScanEntry(dir, name).value == EntryOf(ChunkName(1), [p])
    {
      NameFacts(name);
    }
  }

  /** What the store shows after a crash and an opening that finds this entry. */
  lemma {:induction false} CrashAndOpen(before: seq<Event>, entry: IndexEntry, p: Point) returns (evs: seq<Event>)
    requires Fair(before, MAX_CHUNK_ID)
    requires var s := Run(FRESH, before);
             && !s.pc.Down? && !s.pc.Logging? && (s.pc.Replacing? ==> s.pc.stage == Create) && s.submitted == [p]
             && Rebuilt(s.dir, [entry]) && entry.name in s.dir && s.dir[entry.name] == ChunkBytes([p])
             && Recovered(WalOf(s.dir)) == [p]
    ensures evs == before + [Crash(0)] + [Open([entry], Untouched, true)] && Fair(evs, MAX_CHUNK_ID)
    ensures Run(FRESH, evs).submitted == [p] && Visible(Run(FRESH, evs)) == [p, p]
  {
    hide Fair, Run, ChunkBytes, Visible, Rebuilt;
    evs := Extend(before, Crash(0), MAX_CHUNK_ID);
    OpenedTwice(Run(FRESH, evs), entry, p);
    evs := Extend(evs, Open([entry], Untouched, true), MAX_CHUNK_ID);
  }

  /** The first crash window does double points: a point submitted once is stored
      twice after a crash between the rename of index.dat and the log truncation. */
  lemma {:induction false} CrashBeforeTruncationDoubles(p: Point) returns (before: seq<Event>, evs: seq<Event>)
    ensures before + [Crash(0)] <= evs && Fair(evs, MAX_CHUNK_ID) && Run(FRESH, before).pc.Truncating?
    ensures Run(FRESH, evs).submitted == [p] && Visible(Run(FRESH, evs)) == [p, p]
  {
    hide Fair, Run, ChunkName, ChunkBytes, IndexText, LoadIndexFile, Recovered, Visible;
    before := FirstChunk(p);
    before := PublishIndex(before, MAX_CHUNK_ID);
    var entry := EntryOf(ChunkName(1), [p]);
    FirstIndexLoads(Run(FRESH, before).dir, entry);
    evs := CrashAndOpen(before, entry, p);
  }

  /** So does the second: a crash between the rename of the first chunk and the
      first index.dat. */
  lemma {:induction false} CrashBeforeFirstIndexDoubles(p: Point) returns (before: seq<Event>, evs: seq<Event>)
    ensures before + [Crash(0)] <= evs && Fair(evs, MAX_CHUNK_ID)
    ensures Run(FRESH, before).pc.Replacing? && DoublingCrash(Run(FRESH, before), Crash(0))
    ensures Run(FRESH, evs).submitted == [p] && Visible(Run(FRESH, evs)) == [p, p]
  {
    hide Fair, Run, ChunkBytes, Visible;
    before := FirstChunk(p);
    FirstChunkScanned(Run(FRESH, before).dir, p);
    evs := CrashAndOpen(before, EntryOf(ChunkName(1), [p]), p);
  }

  lemma FirstIndexLoads(dir: Dir, entry: IndexEntry)
    requires entry.name == ChunkName(1) && INDEX_NAME in dir && dir[INDEX_NAME] == ToBytes(IndexText([] + [entry]))
    ensures LoadIndexFile(dir) == Some([entry])
  {
    hide ChunkName, IndexText, LoadIndex, FromBytes, ToBytes;
    GeneratedName(1, "");
    assert [] + [entry] == [entry];
    NamesAscii([entry]);
    AsciiBytes(IndexText([entry]));
    IndexRoundTrip([entry]);
  }
}
