/** The invariant of the store's state machine, and what it needs to know about
    file names, indexes and committed points. */
module StoreInvariant {
  import opened Words
  import opened Wrappers
  import opened ChunkFile
  import opened CodecTheorems
  import opened Wal
  import opened IndexFile
  import opened StoreMachine

  // ---------------------------------------------------------------- names and files

  predicate IsChunkName(name: string) {
    MatchChunkName(name).Some?
  }

  /** A file that holds the whole chunk of this nonempty buffer. */
  predicate WholeChunk(bytes: seq<Byte>, b: seq<Point>) {
    b != [] && LengthsFit(b) && bytes == ChunkBytes(b)
  }

  ghost predicate AllIn(ps: seq<Point>, all: seq<Point>) {
    forall p | p in ps :: p in all
  }

  /** Two directories hold the same chunk files and the same index.dat. */
  ghost predicate SameChunks(dir: Dir, dir': Dir) {
    forall name | IsChunkName(name) || name == INDEX_NAME ::
      (name in dir <==> name in dir') && (name in dir ==> dir[name] == dir'[name])
  }

  lemma NameFacts(name: string)
    ensures IsChunkName(name) ==> name != WAL_NAME && name != INDEX_NAME && CleanName(name)
    ensures !IsChunkName(name + TMP_SUFFIX) && name + TMP_SUFFIX != WAL_NAME && name + TMP_SUFFIX != INDEX_NAME
  {
    var t := name + TMP_SUFFIX;
    assert t[|t| - 1] == 'p' && WAL_NAME[6] == 'g' && INDEX_NAME[8] == 't';
    if IsChunkName(name) {
      assert name[..6][0] == name[0];
      assert forall i | 6 <= i < 10 :: name[i] == name[6..10][i - 6];
      assert forall i | 0 <= i < 6 :: name[i] == "chunk_"[i];
      assert forall i | 10 <= i < 14 :: name[i] == ".dat"[i - 10];
    }
  }

  /** Every entry names an existing chunk with an id up to maxID. */
  ghost predicate IndexOk(dir: Dir, es: seq<IndexEntry>, maxID: nat) {
    forall e | e in es :: e.name in dir && IsChunkName(e.name) && MatchChunkName(e.name).value <= maxID
  }

  /** The memory index is what index.dat says, or, without an index.dat, lists
      chunks a header scan would find. */
  ghost predicate IndexBacked(dir: Dir, es: seq<IndexEntry>) {
    match LoadIndexFile(dir)
    case Some(loaded) => loaded == es
    case None => DistinctNames(es) && forall e | e in es :: ScanEntry(dir, e.name) == Some(e)
  }

  // ---------------------------------------------------------------- the invariant

  ghost predicate ChunksOk(dir: Dir, chunks: Chunks) {
    forall name | name in dir && IsChunkName(name) :: WholeChunk(dir[name], BufferOf(chunks, name))
  }

  ghost predicate PcOk(s: State) {
    match s.pc
    case Down => true
    case Idle => true
    case Logging(_) => true
    case Truncating(_) => s.mem.buffer == []
    case Replacing(r, target, stage) =>
      && 1 <= s.mem.nextID && r.entry.name == ChunkName(s.mem.nextID)
      && s.mem.buffer != [] && LengthsFit(s.mem.buffer)
      && r.entry == EntryOf(r.entry.name, s.mem.buffer) && r.chunk == ChunkBytes(s.mem.buffer)
      && r.index == ToBytes(IndexText(s.mem.index + [r.entry]))
      && (forall e | e in s.mem.index :: e.name != r.entry.name)
      && (stage == Rename ==> TmpName(r, target) in s.dir && s.dir[TmpName(r, target)] == DataOf(r, target))
      && (target == ToIndex ==> r.entry.name in s.dir && s.dir[r.entry.name] == r.chunk
                                && BufferOf(s.chunks, r.entry.name) == s.mem.buffer)
  }

  /** Chunks, index.dat and memory index agree, wherever the writer is. The log
      plays no part in this. */
  ghost predicate Consistent(s: State) {
    && ChunksOk(s.dir, s.chunks) && s.mem.nextID <= MAX_CHUNK_ID
    && IndexOk(s.dir, s.mem.index, s.mem.nextID) && IndexBacked(s.dir, s.mem.index)
  }

  ghost predicate Running(s: State) {
    Consistent(s) && PcOk(s)
  }

  /** With the process gone, whatever opening makes of the directory is an index. */
  ghost predicate Openable(s: State) {
    ChunksOk(s.dir, s.chunks) && forall es | Rebuilt(s.dir, es) :: IndexOk(s.dir, es, MAX_CHUNK_ID)
  }

  ghost predicate Inv(s: State) {
    if s.pc.Down? then Openable(s) else Running(s)
  }

  // ---------------------------------------------------------------- committed points

  lemma {:induction false} CommittedFrame(dir: Dir, dir': Dir, es: seq<IndexEntry>)
    requires forall e | e in es :: e.name in dir && e.name in dir' && dir[e.name] == dir'[e.name]
    ensures Committed(dir, es) == Committed(dir', es)
  {
    if es != [] {
      assert es[|es| - 1] in es;
      CommittedFrame(dir, dir', es[..|es| - 1]);
    }
  }

  lemma CommittedAppend(dir: Dir, es: seq<IndexEntry>, e: IndexEntry)
    ensures Committed(dir, es + [e]) == Committed(dir, es) + ChunkContents(dir, e.name)
  {
    assert (es + [e])[..|es|] == es;
  }

  lemma NothingCommitted(dir: Dir)
    ensures Committed(dir, []) == []
  {
  }

  // ---------------------------------------------------------------- written points

  lemma {:induction false} WrittenFrame(chunks: Chunks, chunks': Chunks, es: seq<IndexEntry>)
    requires forall e | e in es :: BufferOf(chunks, e.name) == BufferOf(chunks', e.name)
    ensures Written(chunks, es) == Written(chunks', es)
  {
    if es != [] {
      assert es[|es| - 1] in es;
      WrittenFrame(chunks, chunks', es[..|es| - 1]);
    }
  }

  lemma WrittenAppend(chunks: Chunks, es: seq<IndexEntry>, e: IndexEntry)
    ensures Written(chunks, es + [e]) == Written(chunks, es) + BufferOf(chunks, e.name)
  {
    assert (es + [e])[..|es|] == es;
  }

  lemma {:induction false} WrittenConcat(chunks: Chunks, es: seq<IndexEntry>, fs: seq<IndexEntry>)
    ensures Written(chunks, es + fs) == Written(chunks, es) + Written(chunks, fs)
  {
    hide BufferOf, Written;
    if fs == [] {
      NothingWritten(chunks);
      assert es + fs == es && Written(chunks, es) + [] == Written(chunks, es);
    } else {
      var init, last := fs[..|fs| - 1], fs[|fs| - 1];
      WrittenConcat(chunks, es, init);
      assert es + fs == es + init + [last] && fs == init + [last];
      WrittenAppend(chunks, es + init, last); WrittenAppend(chunks, init, last);
      assert Written(chunks, es) + Written(chunks, init) + BufferOf(chunks, last.name)
          == Written(chunks, es) + (Written(chunks, init) + BufferOf(chunks, last.name));
    }
  }

  lemma NothingWritten(chunks: Chunks)
    ensures Written(chunks, []) == []
  {
  }

  /** A list of distinct entries contributes no more points than a list that
      has all of them. */
  lemma {:induction false} WrittenSubset(chunks: Chunks, es: seq<IndexEntry>, fs: seq<IndexEntry>)
    requires DistinctNames(es) && forall e | e in es :: e in fs
    ensures multiset(Written(chunks, es)) <= multiset(Written(chunks, fs))
  {
    hide BufferOf, Written;
    if es == [] {
      NothingWritten(chunks);
    } else {
      var init, last := es[..|es| - 1], es[|es| - 1];
      assert last in es;
      var k :| 0 <= k < |fs| && fs[k] == last;
      var rest := fs[..k] + fs[k + 1..];
      forall e | e in init ensures e in rest {
        var i :| 0 <= i < |init| && init[i] == e;
        assert es[i] == e && e in es && es[i].name != es[|es| - 1].name;
        var j :| 0 <= j < |fs| && fs[j] == e;
        assert j != k;
        if j < k { assert rest[j] == e; } else { assert rest[j - 1] == e; }
      }
      WrittenSubset(chunks, init, rest);
      WrittenConcat(chunks, fs[..k], fs[k + 1..]);
      WrittenAppend(chunks, fs[..k], last);
      WrittenConcat(chunks, fs[..k] + [last], fs[k + 1..]);
      assert fs == fs[..k] + [last] + fs[k + 1..] && es == init + [last];
      WrittenAppend(chunks, init, last);
    }
  }

  /** Opening finds at least what the memory index had. */
  lemma RebuiltCovers(dir: Dir, chunks: Chunks, index: seq<IndexEntry>, maxID: nat, es: seq<IndexEntry>)
    requires maxID <= MAX_CHUNK_ID && IndexOk(dir, index, maxID) && IndexBacked(dir, index) && Rebuilt(dir, es)
    ensures IndexOk(dir, es, MAX_CHUNK_ID)
    ensures multiset(Written(chunks, index)) <= multiset(Written(chunks, es))
  {
    if LoadIndexFile(dir).None? {
      forall e | e in es ensures e.name in dir && IsChunkName(e.name) && MatchChunkName(e.name).value <= MAX_CHUNK_ID {
        MatchedIdBound(e.name);
      }
      WrittenSubset(chunks, index, es);
    }
  }

  lemma MatchedIdBound(name: string)
    requires IsChunkName(name)
    ensures MatchChunkName(name).value <= MAX_CHUNK_ID
  {
    var d := name[6..10];
    assert d[..3][..2][..1][..0] == "";
    assert DigitsValue(d[..3][..2][..1]) <= 9;
    assert DigitsValue(d[..3][..2]) <= 99;
    assert DigitsValue(d[..3]) <= 999;
  }

  // ---------------------------------------------------------------- steps that keep chunks and index

  lemma SameChunksKeeps(dir: Dir, dir': Dir, index: seq<IndexEntry>, maxID: nat)
    requires SameChunks(dir, dir') && IndexOk(dir, index, maxID) && IndexBacked(dir, index)
    ensures IndexOk(dir', index, maxID) && IndexBacked(dir', index)
    ensures Committed(dir', index) == Committed(dir, index)
  {
    CommittedFrame(dir, dir', index);
    forall e | e in index ensures ScanEntry(dir', e.name) == ScanEntry(dir, e.name) {
    }
  }
}
