/** The write path, rotation and recovery of one series as the store runs them,
    on a directory whose operations may fail. Every method is proved to be a run
    of the store's state machine, so what holds of all runs holds of it. */
module StoreImpl {
  import opened Words
  import opened Wrappers
  import opened Codec
  import opened CodecImpl
  import opened ChunkFile
  import opened Wal
  import opened IndexFile
  import opened StoreMachine
  import opened StoreInvariant
  import opened StoreTheorems
  import opened StoreCalm

  // ---------------------------------------------------------------- the directory

  /** A directory on disk. Each operation succeeds or fails, as the operating
      system pleases; a failed write may leave any prefix of its bytes. */
  class Directory {
    var files: Dir

    /** Failed operations so far, truncations aside. */
    ghost var failures: nat

    constructor ()
      ensures files == map[] && failures == 0
    {
      files, failures := map[], 0;
    }

    method Append(name: string, bytes: seq<Byte>) returns (ok: bool, ghost written: nat)
      modifies this
      ensures written <= |bytes| && (ok ==> written == |bytes|)
      ensures files == old(files)[name := (if name in old(files) then old(files[name]) else []) + bytes[..written]]
      ensures failures == old(failures) + if ok then 0 else 1
    {
      ok := *;
      failures := failures + if ok then 0 else 1;
      var n: nat :| n <= |bytes|;
      if ok {
        n := |bytes|;
      }
      files := files[name := (if name in files then files[name] else []) + bytes[..n]];
      written := n;
    }

    method Create(name: string) returns (ok: bool)
      modifies this
      ensures files == if ok then old(files)[name := []] else old(files)
      ensures failures == old(failures) + if ok then 0 else 1
    {
      ok := *;
      failures := failures + if ok then 0 else 1;
      if ok {
        files := files[name := []];
      }
    }

    /** Write and fsync of a file just created. */
    method Write(name: string, bytes: seq<Byte>) returns (ok: bool, ghost written: nat)
      modifies this
      ensures written <= |bytes| && (ok ==> written == |bytes|)
      ensures files == old(files)[name := bytes[..written]]
      ensures failures == old(failures) + if ok then 0 else 1
    {
      ok := *;
      failures := failures + if ok then 0 else 1;
      var n: nat :| n <= |bytes|;
      if ok {
        n := |bytes|;
      }
      files := files[name := bytes[..n]];
      written := n;
    }

    method Rename(from: string, to: string) returns (ok: bool)
      requires from in files
      modifies this
      ensures files == if ok then RenameFile(old(files), from, to) else old(files)
      ensures failures == old(failures) + if ok then 0 else 1
    {
      ok := *;
      failures := failures + if ok then 0 else 1;
      if ok {
        files := RenameFile(files, from, to);
      }
    }

    /** The store ignores its failure. */
    method Truncate(name: string) returns (ok: bool)
      modifies this`files
      ensures files == if ok && name in old(files) then old(files)[name := []] else old(files)
    {
      ok := *;
      if ok && name in files {
        files := files[name := []];
      }
    }
  }

  // ---------------------------------------------------------------- scanning chunk headers

  method ScanChunkHeaders(files: Dir) returns (entries: seq<IndexEntry>)
    ensures IsScan(files, entries)
  {
    hide MatchChunkName, ReadHeader, SortedByStart, DistinctNames, InsertByStart;
    entries := [];
    var names := set name | name in files;
    ghost var seen: set<string> := {};
    EmptyScan();
    while names != {}
      invariant names !! seen && (forall name | name in files :: name in names || name in seen)
      invariant SortedByStart(entries) && DistinctNames(entries)
      invariant forall e | e in entries :: e.name in seen && ScanEntry(files, e.name) == Some(e)
      invariant forall name | name in seen && ScanEntry(files, name).Some? :: ScanEntry(files, name).value in entries
      decreases |names|
    {
      var name :| name in names;
      names, seen := names - {name}, seen + {name};
      match ScanEntry(files, name)
      case None =>
      case Some(e) =>
        ScanEntryName(files, name);
        InsertSorted(entries, e);
        entries := InsertByStart(entries, e);
    }
    SortedScanIsScan(files, entries);
  }

  lemma SortedScanIsScan(files: Dir, es: seq<IndexEntry>)
    requires SortedByStart(es) && DistinctNames(es)
    requires forall e | e in es :: ScanEntry(files, e.name) == Some(e)
    requires forall name | name in files && ScanEntry(files, name).Some? :: ScanEntry(files, name).value in es
    ensures IsScan(files, es)
  {
    hide MatchChunkName, ReadHeader;
  }

  method LargestID(entries: seq<IndexEntry>) returns (id: nat)
    ensures id == MaxID(entries)
  {
    hide MatchChunkName;
    id := 0;
    for i := 0 to |entries|
      invariant MaxID(entries) == if MaxID(entries[i..]) > id then MaxID(entries[i..]) else id
    {
      assert entries[i..][1..] == entries[i + 1..];
      match MatchChunkName(entries[i].name)
      case None =>
      case Some(m) =>
        if m > id {
          id := m;
        }
    }
  }

  // ---------------------------------------------------------------- the series

  /** Events were added, none of them a crash or an opening. */
  ghost predicate Unbroken(before: seq<Event>, after: seq<Event>) {
    before <= after && forall i | |before| <= i < |after| :: !after[i].Crash? && !after[i].Open?
  }

  class SeriesStore {
    const disk: Directory
    var buffer: seq<Point>
    var nextID: Word32
    var index: seq<IndexEntry>

    /** The state machine's view, and the events that led to it. */
    ghost var state: State
    ghost var events: seq<Event>

    ghost predicate InStep()
      reads this, disk
    {
      state.dir == disk.files && state.mem == Mem(buffer, nextID, index) && state == Run(FRESH, events)
    }

    /** No call is in progress. */
    ghost predicate Ready()
      reads this, disk
    {
      InStep() && state.pc.Idle?
    }

    ghost method Step(e: Event)
      requires state == Run(FRESH, events)
      modifies this`state, this`events
      ensures state == Next(old(state), e) && events == old(events) + [e] && state == Run(FRESH, events)
    {
      state := Next(state, e);
      events := events + [e];
      assert events[..|events| - 1] == old(events);
    }

    /** A series nobody wrote before. */
    constructor New(disk: Directory)
      requires disk.files == map[]
      ensures Ready() && this.disk == disk && state == FRESH && events == []
    {
      this.disk := disk;
      buffer, nextID, index, state, events := [], 0, [], FRESH, [];
    }

    /** Opens the directory a process left behind when it died. */
    constructor (disk: Directory, ghost before: seq<Event>)
      requires Run(FRESH, before).pc.Down? && Run(FRESH, before).dir == disk.files
      modifies disk
      ensures Ready() && this.disk == disk
      ensures exists scan, rewrite :: events == before + [Open(scan, rewrite, true)]
      ensures Rebuilt(old(disk.files), index) && buffer == Recovered(WalOf(old(disk.files)))
      ensures nextID == MaxID(index) % TWO_TO_32
      ensures LoadIndexFile(old(disk.files)).Some? ==>
                index == LoadIndexFile(old(disk.files)).value && disk.files == old(disk.files)
      ensures LoadIndexFile(old(disk.files)).None? ==> IsScan(old(disk.files), index)
    {
      this.disk := disk;
      buffer, nextID, index, state, events := [], 0, [], Run(FRESH, before), before;
      new;
      hide MaxID, Recovered, Rebuilt, RewriteIndex, LoadIndexFile, Run, Next, OpenStep;
      ghost var dir := disk.files;
      ghost var rewrite;
      rewrite := LoadEntries();
      var id := LargestID(index);
      nextID := id % TWO_TO_32;
      var log := if WAL_NAME in disk.files then disk.files[WAL_NAME] else [];
      buffer := RecoverWAL(log);
      RewriteKeepsLog(dir, index, rewrite);
      OpenEffect(state, index, rewrite);
      Step(Open(index, rewrite, true));
    }

    /** Reads index.dat, or scans the chunk headers and rewrites it. */
    method LoadEntries() returns (ghost rewrite: Rewrite)
      modifies disk, this`index
      ensures Rebuilt(old(disk.files), index)
      ensures disk.files == if LoadIndexFile(old(disk.files)).Some? then old(disk.files)
              else RewriteIndex(old(disk.files), index, rewrite)
    {
      hide IsScan, RewriteIndex, LoadIndex;
      rewrite := Untouched;
      var loaded := None;
      if INDEX_NAME in disk.files {
        loaded := LoadIndexText(FromBytes(disk.files[INDEX_NAME]));
      }
      if loaded.Some? {
        index := loaded.value;
      } else {
        index := ScanChunkHeaders(disk.files);
        rewrite := RewriteIndexFile();
      }
    }

    /** Writes index.dat for the scanned entries; errors are ignored. */
    method RewriteIndexFile() returns (ghost rewrite: Rewrite)
      requires LoadIndexFile(disk.files).None?
      modifies disk
      ensures disk.files == RewriteIndex(old(disk.files), index, rewrite)
    {
      hide IndexText, LoadIndex, ToBytes;
      var text := WriteIndexText(index);
      var bytes, tmp := ToBytes(text), INDEX_NAME + TMP_SUFFIX;
      var ok := disk.Create(tmp);
      if !ok {
        return Untouched;
      }
      ghost var written;
      ok, written := disk.Write(tmp, bytes);
      if !ok {
        return Torn(written);
      }
      assert bytes[..|bytes|] == bytes;
      ok := disk.Rename(tmp, INDEX_NAME);
      if !ok {
        return Torn(|bytes|);
      }
      rewrite := Replaced;
    }

    /** Logs, buffers, and rotates when a limit is reached. */
    method WritePoint(ts: Word, value: Word) returns (ok: bool)
      requires Ready()
      modifies this, disk
      ensures Ready()
      ensures Unbroken(old(events), events)
      ensures state.submitted == old(state.submitted) + [Point(ts, value)]
      ensures state.acked == old(state.acked) + if ok then [Point(ts, value)] else []
      ensures disk.failures == old(disk.failures) + if ok then 0 else 1
      ensures ok ==> state.logged == old(state.logged) + [Point(ts, value)]
      ensures ok ==> |buffer| < 10_000 && SpanOf(buffer) < 7_200
      ensures ok ==>
                var buf := old(buffer) + [Point(ts, value)];
                if |buf| < 10_000 && SpanOf(buf) < 7_200 then buffer == buf && index == old(index)
                else buffer == [] && index == old(index) + [EntryOf(ChunkName((old(nextID) + 1) % TWO_TO_32), buf)]
      ensures !ok ==> index == old(index)
      ensures !ok ==> || (state.logged == old(state.logged) && buffer == old(buffer))
                      || (state.logged == old(state.logged) + [Point(ts, value)]
                          && buffer == old(buffer) + [Point(ts, value)])
    {
      hide Run, Record, ShouldRotate, BeginRotation, AdvanceStep, FailStep;
      var p := Point(ts, value);
      Step(Submit(p));
      ghost var written;
      var logged;
      logged, written := disk.Append(WAL_NAME, Record(p));
      if !logged {
        FailedLogEffect(state, written);
        Step(Fail(written));
        return false;
      }
      assert Record(p)[..RECORD_SIZE] == Record(p);
      buffer := buffer + [p];
      BelowLimits(buffer);
      ghost var pre := LoggedEffect(state);
      Step(Advance);
      if ShouldRotate(buffer) {
        ok := RotateLocked(pre, Some(p));
      } else {
        ok := true;
      }
    }

    method FlushSeries() returns (ok: bool)
      requires Ready()
      modifies this, disk
      ensures Ready()
      ensures Unbroken(old(events), events)
      ensures state.submitted == old(state.submitted) && state.logged == old(state.logged)
              && state.acked == old(state.acked)
      ensures disk.failures == old(disk.failures) + if ok then 0 else 1
      ensures ok ==> buffer == []
      ensures ok ==> index == old(index) + if old(buffer) == [] then []
                                           else [EntryOf(ChunkName((old(nextID) + 1) % TWO_TO_32), old(buffer))]
    {
      hide Run, BeginRotation, OpenStep, Rebuilt;
      if |buffer| == 0 {
        return true;
      }
      ghost var pre := state;
      Step(Flush);
      ok := RotateLocked(pre, None);
    }

    /** Moves the buffer into a new chunk: chunk by temporary file and rename,
        then index.dat the same way, then the memory, then the log. */
    method RotateLocked(ghost pre: State, ghost ack: Option<Point>) returns (ok: bool)
      requires buffer != [] && state == Run(FRESH, events)
      requires pre.dir == disk.files && pre.mem == Mem(buffer, nextID, index) && state == BeginRotation(pre, ack)
      modifies this, disk
      ensures Ready() && Unbroken(old(events), events)
      ensures state.submitted == pre.submitted && state.logged == pre.logged
      ensures state.acked == pre.acked + if ok then AckOf(ack) else []
      ensures if ok then
                buffer == [] && index == old(index) + [EntryOf(ChunkName((old(nextID) + 1) % TWO_TO_32), old(buffer))]
              else buffer == old(buffer) && index == old(index)
      ensures nextID == (old(nextID) + 1) % TWO_TO_32
      ensures disk.failures == old(disk.failures) + if ok then 0 else 1
    {
      hide Run, Encoded, ChunkBytes, ChunkName, IndexText, ToBytes, Committed, OpenStep, Rebuilt, ShouldRotate, Record,
           AppendWal;
      var streams := Encode(buffer);
      var fileBytes := BuildChunk(buffer, streams);
      nextID := (nextID + 1) % TWO_TO_32;
      var entry := IndexEntry(ChunkName(nextID), buffer[0].ts, buffer[|buffer| - 1].ts, |buffer| % TWO_TO_32);
      ok := ReplaceFile(entry.name, fileBytes);
      if !ok {
        return;
      }
      var newIndex := index + [entry];
      var text := WriteIndexText(newIndex);
      ok := ReplaceIndex(newIndex, ToBytes(text));
      if !ok {
        return;
      }
      var truncated := disk.Truncate(WAL_NAME);
      if truncated {
        Step(Advance);
      } else {
        Step(Fail(0));
      }
    }

    /** Creates the temporary file of the pending replacement and writes it. */
    method WriteTemp(tmp: string, bytes: seq<Byte>) returns (ok: bool)
      requires InStep() && state.pc.Replacing? && state.pc.stage == Create
      requires tmp == TmpName(state.pc.r, state.pc.target) && bytes == DataOf(state.pc.r, state.pc.target)
      modifies this`state, this`events, disk
      ensures InStep() && Unbroken(old(events), events)
      ensures state.submitted == old(state.submitted) && state.logged == old(state.logged)
              && state.acked == old(state.acked)
      ensures state.pc == if ok then old(state.pc).(stage := Rename) else Idle
      ensures ok ==> tmp in disk.files
      ensures disk.failures == old(disk.failures) + if ok then 0 else 1
    {
      hide Run, BeginRotation, OpenStep, Rebuilt, ShouldRotate, Record, AppendWal, TruncateWal, TmpName, DataOf;
      ok := disk.Create(tmp);
      if !ok {
        Step(Fail(0));
        return;
      }
      Step(Advance);
      ghost var written;
      ok, written := disk.Write(tmp, bytes);
      if !ok {
        Step(Fail(written));
        return;
      }
      assert bytes[..|bytes|] == bytes;
      Step(Advance);
    }

    /** Puts the chunk in place through a temporary file. */
    method ReplaceFile(name: string, bytes: seq<Byte>) returns (ok: bool)
      requires InStep() && state.pc.Replacing? && state.pc.target == ToChunk && state.pc.stage == Create
      requires name == state.pc.r.entry.name && bytes == state.pc.r.chunk
      modifies this`state, this`events, disk
      ensures InStep() && Unbroken(old(events), events)
      ensures state.submitted == old(state.submitted) && state.logged == old(state.logged)
              && state.acked == old(state.acked)
      ensures state.pc == if ok then Replacing(old(state.pc.r), ToIndex, Create) else Idle
      ensures disk.failures == old(disk.failures) + if ok then 0 else 1
    {
      hide Run, BeginRotation, OpenStep, Rebuilt;
      var tmp := name + TMP_SUFFIX;
      ok := WriteTemp(tmp, bytes);
      if !ok {
        return;
      }
      ok := disk.Rename(tmp, name);
      if ok {
        Step(Advance);
      } else {
        Step(Fail(0));
      }
    }

    /** Puts the new index.dat in place, publishes the new index and empties the
        buffer. */
    method ReplaceIndex(newIndex: seq<IndexEntry>, bytes: seq<Byte>) returns (ok: bool)
      requires InStep() && state.pc.Replacing? && state.pc.target == ToIndex && state.pc.stage == Create
      requires newIndex == index + [state.pc.r.entry] && bytes == state.pc.r.index
      modifies this, disk
      ensures InStep() && Unbroken(old(events), events)
      ensures state.submitted == old(state.submitted) && state.logged == old(state.logged)
              && state.acked == old(state.acked)
      ensures state.pc == if ok then Truncating(old(state.pc.r.ack)) else Idle
      ensures disk.failures == old(disk.failures) + if ok then 0 else 1
      ensures nextID == old(nextID)
      ensures if ok then buffer == [] && index == newIndex else buffer == old(buffer) && index == old(index)
    {
      hide Run, BeginRotation, OpenStep;
      var tmp := INDEX_NAME + TMP_SUFFIX;
      ok := WriteTemp(tmp, bytes);
      if !ok {
        return;
      }
      ok := disk.Rename(tmp, INDEX_NAME);
      if ok {
        index, buffer := newIndex, [];
        Step(Advance);
      } else {
        Step(Fail(0));
      }
    }
  }

  lemma OpenEffect(s: State, entries: seq<IndexEntry>, rewrite: Rewrite)
    requires s.pc.Down? && Rebuilt(s.dir, entries)
    ensures var dir := if LoadIndexFile(s.dir).Some? then s.dir else RewriteIndex(s.dir, entries, rewrite);
            var mem := Mem(Recovered(WalOf(s.dir)), MaxID(entries) % TWO_TO_32, entries);
            Next(s, Open(entries, rewrite, true)) == s.(dir := dir, mem := mem, pc := Idle)
  {
    hide IsScan, RewriteIndex, MaxID;
  }

  /** The state between the log append and the rotation it may start. */
  lemma LoggedEffect(s: State) returns (pre: State)
    requires s.pc.Logging?
    ensures pre.dir == AppendWal(s.dir, Record(s.pc.p)) && pre.mem == s.mem.(buffer := s.mem.buffer + [s.pc.p])
    ensures pre.logged == s.logged + [s.pc.p] && pre.submitted == s.submitted && pre.acked == s.acked
    ensures AdvanceStep(s) == if ShouldRotate(pre.mem.buffer) then BeginRotation(pre, Some(s.pc.p))
                              else pre.(pc := Idle, acked := s.acked + [s.pc.p])
  {
    hide ShouldRotate, Record;
    pre := Buffered(s, s.pc.p);
  }

  lemma FailedLogEffect(s: State, n: nat)
    requires s.pc.Logging? && n <= RECORD_SIZE
    ensures FailStep(s, n) == s.(dir := AppendWal(s.dir, Record(s.pc.p)[..n]), pc := Idle)
  {
  }

  lemma RewriteKeepsLog(dir: Dir, scan: seq<IndexEntry>, rewrite: Rewrite)
    ensures WalOf(RewriteIndex(dir, scan, rewrite)) == WalOf(dir)
  {
    hide IndexText, ToBytes;
    NameFacts(INDEX_NAME);
  }
}
