/** What interleaved queries and rotations guarantee: loaded snapshots never
    change, no rotation's index update is lost, and a query returns every write
    at most once, missing exactly pruned chunks and what was rotated between its
    two reads. */
module SnapshotTheorems {
  import opened Words
  import opened Wrappers
  import opened RawQuery
  import opened Snapshots

  // ---------------------------------------------------------------- snapshots are immutable

  lemma SettledStep(w: World, e: Event, x: Series, sl: Slice)
    requires Inv(w) && Settled(w, x, sl)
    ensures Settled(Next(w, e), x, sl) && Elems(Next(w, e).heap, sl) == Elems(w.heap, sl)
  {
    hide SeriesOk, ReaderOk, IndexingOk, Separate, WriterStep;
    match e
    case LockIndex(y, spare) =>
      if Mem(w, y).writer.Written? && w.indexLock.None? { LockedSettled(w, y, spare, x, sl); }
    case Publish(y, ok) =>
      if Mem(w, y).writer.Indexing? { PublishedSettled(w, y, ok, x, sl); }
    case Load(_, _, _, _) =>
    case Scan(_) =>
    case ReadFile(_) =>
    case Copy(_) =>
    case _ => QuietSettled(w, e, x, sl);
  }

  lemma QuietSettled(w: World, e: Event, x: Series, sl: Slice)
    requires Inv(w) && Settled(w, x, sl)
    ensures Settled(w.(mem := w.mem[e.x := WriterStep(Mem(w, e.x), e)]), x, sl)
    requires e.Append? || e.Lock? || e.Unlock? || e.WriteChunk? || e.Clear?
  {
    hide ReaderOk, IndexingOk;
    assert SeriesOk(Entries(w.heap, w.index, e.x), Mem(w, e.x));
    WriterKeeps(Entries(w.heap, w.index, e.x), Mem(w, e.x), e);
  }

  /** The published index and the history of a series only grow, and only its
      own publishing step adds an entry. */
  lemma GrowsStep(w: World, e: Event, x: Series)
    requires Inv(w)
    ensures var w', es := Next(w, e), Entries(w.heap, w.index, x);
            && Entries(w'.heap, w'.index, x)
            == (if e == Publish(x, true) && Mem(w, x).writer.Indexing? then es + [Mem(w, x).writer.e] else es)
            && Mem(w, x).history <= Mem(w', x).history
  {
    hide SeriesOk, ReaderOk, IndexingOk, Separate, ReaderStep, Elems, AppendHeap, AppendSlice;
    match e
    case LockIndex(y, spare) =>
      if Mem(w, y).writer.Written? && w.indexLock.None? { IndexKept(w, y, spare); }
    case Publish(y, ok) =>
      if Mem(w, y).writer.Indexing? { PublishedEntries(w, y, x); }
    case Load(_, _, _, _) =>
    case Scan(_) =>
    case ReadFile(_) =>
    case Copy(_) =>
    case _ =>
  }

  lemma SnapshotSettled(w: World, x: Series)
    requires Inv(w)
    ensures Settled(w, x, SliceOf(w.index, x))
  {
    hide Inv, Settled, SeriesOk;
    LoadedOk(w, x, 0, 0);
  }

  /** A snapshot loaded at any time still reads the same at any later time,
      although appends may have written into its backing arrays, and every later
      index extends it for every series. */
  lemma {:induction false} SnapshotImmutable(evs: seq<Event>, more: seq<Event>, x: Series)
    ensures var w, w' := Run(INITIAL, evs), Run(INITIAL, evs + more);
            && Settled(w', x, SliceOf(w.index, x))
            && Entries(w'.heap, w.index, x) == Entries(w.heap, w.index, x)
            && Entries(w.heap, w.index, x) <= Entries(w'.heap, w'.index, x)
            && Mem(w, x).history <= Mem(w', x).history
  {
    hide Next, Inv, Elems, Settled;
    if more == [] {
      assert evs + more == evs;
      InvRun(evs);
      SnapshotSettled(Run(INITIAL, evs), x);
    } else {
      var init, e := more[..|more| - 1], more[|more| - 1];
      assert (evs + more)[..|evs + more| - 1] == evs + init;
      SnapshotImmutable(evs, init, x);
      InvRun(evs + init);
      SettledStep(Run(INITIAL, evs + init), e, x, SliceOf(Run(INITIAL, evs).index, x));
      GrowsStep(Run(INITIAL, evs + init), e, x);
    }
  }

  // ---------------------------------------------------------------- no update is lost

  /** The entries series x published, in order. */
  function Rotations(evs: seq<Event>, x: Series): seq<Entry> {
    if evs == [] then []
    else
      var before := evs[..|evs| - 1];
      var m := Mem(Run(INITIAL, before), x);
      Rotations(before, x) + if evs[|evs| - 1] == Publish(x, true) && m.writer.Indexing? then [m.writer.e] else []
  }

  /** However rotations of different series interleave, the index lists for each
      series exactly what that series published. */
  lemma {:induction false} NoUpdateLost(evs: seq<Event>, x: Series)
    ensures var w := Run(INITIAL, evs); Entries(w.heap, w.index, x) == Rotations(evs, x)
  {
    hide Next, Inv, Elems;
    if evs == [] {
      NothingPublished(x);
    } else {
      var before := evs[..|evs| - 1];
      NoUpdateLost(before, x);
      InvRun(before);
      GrowsStep(Run(INITIAL, before), evs[|evs| - 1], x);
    }
  }

  lemma NothingPublished(x: Series)
    ensures Entries(INITIAL.heap, INITIAL.index, x) == []
  {
  }

  // ---------------------------------------------------------------- which writes a query sees

  /** The same mark n times. */
  function Marks(n: nat, mark: bool): (marks: seq<bool>)
    ensures |marks| == n
  {
    seq(n, _ => mark)
  }

  /** The marked points, in order. */
  function Select(ps: seq<Point>, marks: seq<bool>): seq<Point>
    requires |ps| == |marks|
  {
    if ps == [] then []
    else
      var n := |ps| - 1;
      Select(ps[..n], marks[..n]) + if marks[n] then [ps[n]] else []
  }

  function Unmarked(marks: seq<bool>): (r: seq<bool>)
    ensures |r| == |marks|
  {
    seq(|marks|, i requires 0 <= i < |marks| => !marks[i])
  }

  /** Marks the points of the first k chunks whose range meets the query's. */
  function ChunkMarks(files: map<nat, seq<Point>>, es: seq<Entry>, k: nat, start: Word, end: Word): (marks: seq<bool>)
    ensures |marks| == |Points(files, es)|
  {
    if es == [] then []
    else
      var n := |es| - 1;
      var e := es[n];
      ChunkMarks(files, es[..n], k, start, end)
      + Marks(if e.id in files then |files[e.id]| else 0, n < k && RangesMeet(e.start, e.end, start, end))
  }

  /** The writes that a query which loaded the first k index entries sees when it
      copies the buffer: those in these chunks, unless pruned, and those buffered. */
  function Seen(w: World, x: Series, k: nat, start: Word, end: Word): (marks: seq<bool>)
    ensures |marks| == |Points(Mem(w, x).files, Entries(w.heap, w.index, x))| + |Mem(w, x).buffer|
  {
    ChunkMarks(Mem(w, x).files, Entries(w.heap, w.index, x), k, start, end) + Marks(|Mem(w, x).buffer|, true)
  }

  /** The points of the chunks whose range does not meet the query's. */
  function Pruned(files: map<nat, seq<Point>>, es: seq<Entry>, start: Word, end: Word): seq<Point> {
    if es == [] then []
    else
      var e := es[|es| - 1];
      Pruned(files, es[..|es| - 1], start, end)
      + if RangesMeet(e.start, e.end, start, end) || e.id !in files then [] else files[e.id]
  }

  lemma {:induction false} SelectConcat(ps: seq<Point>, qs: seq<Point>, m: seq<bool>, n: seq<bool>)
    requires |ps| == |m| && |qs| == |n|
    ensures Select(ps + qs, m + n) == Select(ps, m) + Select(qs, n)
  {
    if qs == [] {
      assert ps + qs == ps && m + n == m;
    } else {
      var l := |qs| - 1;
      SelectConcat(ps, qs[..l], m, n[..l]);
      assert (ps + qs)[..|ps| + l] == ps + qs[..l] && (m + n)[..|ps| + l] == m + n[..l];
    }
  }

  lemma {:induction false} SelectAll(ps: seq<Point>, mark: bool)
    ensures Select(ps, Marks(|ps|, mark)) == if mark then ps else []
  {
    if ps != [] {
      var n := |ps| - 1;
      assert Marks(|ps|, mark)[..n] == Marks(n, mark) && ps == ps[..n] + [ps[n]];
      SelectAll(ps[..n], mark);
    }
  }

  lemma UnmarkedConcat(m: seq<bool>, n: seq<bool>)
    ensures Unmarked(m + n) == Unmarked(m) + Unmarked(n)
  {
  }

  lemma UnmarkedMarks(n: nat, mark: bool)
    ensures Unmarked(Marks(n, mark)) == Marks(n, !mark)
  {
  }

  function Least(a: nat, b: nat): nat {
    if a < b then a else b
  }

  /** The marked points of the chunks are what reading the picked ones gives; the
      unmarked ones are those of the pruned chunks, then of all later chunks. */
  lemma {:induction false} SelectChunks(files: map<nat, seq<Point>>, es: seq<Entry>, k: nat, start: Word, end: Word)
    requires forall i | 0 <= i < |es| :: es[i].id in files
    ensures var marks, c := ChunkMarks(files, es, k, start, end), Least(k, |es|);
            && Select(Points(files, es), marks) == Contents(files, Picked(es[..c], start, end))
            && Select(Points(files, es), Unmarked(marks)) == Pruned(files, es[..c], start, end) + Points(files, es[c..])
  {
    hide Select, ChunkMarks, Points, Picked, Pruned;
    if es == [] {
      NothingSelected(files, k, start, end);
    } else {
      var n := |es| - 1;
      SelectChunks(files, es[..n], k, start, end);
      ChunkSelected(files, es, k, start, end);
      if n < k {
        assert es[..n + 1] == es && es[..n][..n] == es[..n] && es[n + 1..] == [] == es[..n][n..];
        PickLast(files, es, start, end);
        NothingSelected(files, k, start, end);
      } else {
        assert es[..k] == es[..n][..k] && es[k..] == es[..n][k..] + [es[n]];
        PointsAppend(files, es[..n][k..], es[n]);
      }
    }
  }

  /** What the last chunk adds to the marked and to the unmarked points. */
  lemma ChunkSelected(files: map<nat, seq<Point>>, es: seq<Entry>, k: nat, start: Word, end: Word)
    requires es != [] && es[|es| - 1].id in files
    ensures var n := |es| - 1;
            var chunk, mark := files[es[n].id], n < k && RangesMeet(es[n].start, es[n].end, start, end);
            var ps, marks, marks0 := Points(files, es[..n]), ChunkMarks(files, es, k, start, end),
                ChunkMarks(files, es[..n], k, start, end);
            && Select(Points(files, es), marks) == Select(ps, marks0) + (if mark then chunk else [])
            && Select(Points(files, es), Unmarked(marks)) == Select(ps, Unmarked(marks0)) + (if mark then [] else chunk)
  {
    hide Select, Unmarked, Marks, RangesMeet;
    var n := |es| - 1;
    var chunk, mark := files[es[n].id], n < k && RangesMeet(es[n].start, es[n].end, start, end);
    var ps, marks0 := Points(files, es[..n]), ChunkMarks(files, es[..n], k, start, end);
    SelectConcat(ps, chunk, marks0, Marks(|chunk|, mark));
    SelectAll(chunk, mark);
    UnmarkedConcat(marks0, Marks(|chunk|, mark)); UnmarkedMarks(|chunk|, mark);
    SelectConcat(ps, chunk, Unmarked(marks0), Marks(|chunk|, !mark));
    SelectAll(chunk, !mark);
  }

  lemma NothingSelected(files: map<nat, seq<Point>>, k: nat, start: Word, end: Word)
    ensures Select([], []) == [] && Unmarked([]) == [] && ChunkMarks(files, [], k, start, end) == []
            && Points(files, []) == []
    ensures Contents(files, Picked([], start, end)) == [] == Pruned(files, [], start, end)
  {
  }

  lemma PickLast(files: map<nat, seq<Point>>, es: seq<Entry>, start: Word, end: Word)
    requires es != [] && es[|es| - 1].id in files
    ensures var init, e := es[..|es| - 1], es[|es| - 1];
            && Contents(files, Picked(es, start, end))
            == Contents(files, Picked(init, start, end))
                + (if RangesMeet(e.start, e.end, start, end) then files[e.id] else [])
            && Pruned(files, es, start, end)
            == Pruned(files, init, start, end) + (if RangesMeet(e.start, e.end, start, end) then [] else files[e.id])
  {
    var init, e := es[..|es| - 1], es[|es| - 1];
    var ids := Picked(init, start, end);
    assert (ids + [e.id])[..|ids|] == ids && ids + [] == ids;
  }

  /** Marking splits the points in range: what is seen and what is missed make up
      all of them, and the query sees them all, in order, exactly when nothing in
      range is missed. */
  lemma {:induction false} SelectSplits(ps: seq<Point>, marks: seq<bool>, start: Word, end: Word)
    requires |ps| == |marks|
    ensures var seen, missed := Filter(Select(ps, marks), start, end), Filter(Select(ps, Unmarked(marks)), start, end);
            && multiset(seen) + multiset(missed) == multiset(Filter(ps, start, end))
            && (seen == Filter(ps, start, end) <==> missed == [])
  {
    hide Filter, InRange;
    if ps == [] {
      assert Unmarked(marks) == [] && Filter([], start, end) == [] by { NothingFiltered(start, end); }
    } else {
      var n := |ps| - 1;
      SelectSplits(ps[..n], marks[..n], start, end);
      assert Unmarked(marks)[..n] == Unmarked(marks[..n]) && ps == ps[..n] + [ps[n]];
      FilterConcat(ps[..n], [ps[n]], start, end);
      FilterConcat(Select(ps[..n], marks[..n]), if marks[n] then [ps[n]] else [], start, end);
      FilterConcat(Select(ps[..n], Unmarked(marks[..n])), if marks[n] then [] else [ps[n]], start, end);
      NothingFiltered(start, end);
      var seen, missed := Filter(Select(ps, marks), start, end), Filter(Select(ps, Unmarked(marks)), start, end);
      SameSize(seen, missed, Filter(ps, start, end));
    }
  }

  lemma NothingFiltered(start: Word, end: Word)
    ensures Filter([], start, end) == []
  {
  }

  lemma SameSize(a: seq<Point>, b: seq<Point>, c: seq<Point>)
    ensures multiset(a) + multiset(b) == multiset(c) && a == c ==> b == []
  {
    if multiset(a) + multiset(b) == multiset(c) && a == c {
      assert |multiset(a) + multiset(b)| == |a| + |b|;
    }
  }

  lemma {:induction false} FilterWithin(ps: seq<Point>, start: Word, end: Word)
    ensures multiset(Filter(ps, start, end)) <= multiset(ps)
  {
    if ps != [] {
      FilterWithin(ps[..|ps| - 1], start, end);
      assert ps == ps[..|ps| - 1] + [ps[|ps| - 1]];
    }
  }

  // ---------------------------------------------------------------- what a query returns

  /** The query of reader r is about to copy the buffer. */
  predicate CopyReady(w: World, r: nat) {
    && r in w.readers && w.readers[r].Reading?
    && w.readers[r].i == |w.readers[r].ids| && Mem(w, w.readers[r].x).writer.Unlocked?
  }

  /** The answer is the picked chunks of the loaded entries and the buffer. */
  lemma ReaderAnswer(w: World, r: nat)
    requires Inv(w) && CopyReady(w, r)
    ensures var rd := w.readers[r];
            var m, es := Mem(w, rd.x), Elems(w.heap, rd.slice);
            Next(w, Copy(r)).readers[r]
                == Done(Filter(Contents(m.files, Picked(es, rd.start, rd.end)) + m.buffer, rd.start, rd.end))
  {
    hide Filter, Points, Contents, Picked, Elems, Settled, IndexingOk;
    var rd := w.readers[r];
    assert ReaderOk(w, rd);
    assert rd.ids[..rd.i] == rd.ids;
  }

  /** The writes of a series, split by what a query of its first k entries sees. */
  lemma SeenWrites(w: World, x: Series, k: nat, start: Word, end: Word)
    requires Inv(w) && !Mem(w, x).writer.Published? && k <= |Entries(w.heap, w.index, x)|
    ensures var m, all, marks := Mem(w, x), Entries(w.heap, w.index, x), Seen(w, x, k, start, end);
            && |marks| == |m.history|
            && Select(m.history, marks) == Contents(m.files, Picked(all[..k], start, end)) + m.buffer
            && Select(m.history, Unmarked(marks)) == Pruned(m.files, all[..k], start, end) + Points(m.files, all[k..])
  {
    hide Select, Unmarked, Marks;
    var m, all := Mem(w, x), Entries(w.heap, w.index, x);
    assert SeriesOk(all, m);
    var marks, n := ChunkMarks(m.files, all, k, start, end), |m.buffer|;
    SelectChunks(m.files, all, k, start, end);
    SelectConcat(Points(m.files, all), m.buffer, marks, Marks(n, true));
    SelectAll(m.buffer, true); SelectAll(m.buffer, false);
    UnmarkedConcat(marks, Marks(n, true)); UnmarkedMarks(n, true);
    SelectConcat(Points(m.files, all), m.buffer, Unmarked(marks), Marks(n, false));
  }

  /** A running query keeps its range and the slice it loaded. */
  ghost predicate Queries(rd: Reader, x: Series, start: Word, end: Word, sl: Slice) {
    rd.Done? || (rd.x == x && rd.start == start && rd.end == end && rd.slice == sl)
  }

  lemma {:induction false} QueryKeeps(evs: seq<Event>, r: nat, x: Series, start: Word, end: Word, between: seq<Event>)
    requires forall e | e in between :: !(e.Load? && e.r == r)
    ensures var w := Run(INITIAL, evs + [Load(r, x, start, end)] + between);
            r in w.readers && Queries(w.readers[r], x, start, end, SliceOf(Run(INITIAL, evs).index, x))
  {
    hide LockIndexStep, PublishStep, WriterStep, Filter;
    var all := evs + [Load(r, x, start, end)] + between;
    if between == [] {
      assert all == evs + [Load(r, x, start, end)] && all[..|all| - 1] == evs;
    } else {
      var init, e := between[..|between| - 1], between[|between| - 1];
      assert all[..|all| - 1] == evs + [Load(r, x, start, end)] + init && e in between;
      QueryKeeps(evs, r, x, start, end, init);
      ReaderKeeps(Run(INITIAL, all[..|all| - 1]), e, r);
    }
  }

  lemma ReaderKeeps(w: World, e: Event, r: nat)
    requires r in w.readers && !(e.Load? && e.r == r)
    ensures r in Next(w, e).readers
    ensures var rd, rd' := w.readers[r], Next(w, e).readers[r];
            rd.Done? ==> rd'.Done?
    ensures var rd, rd' := w.readers[r], Next(w, e).readers[r];
            !rd.Done? ==> Queries(rd', rd.x, rd.start, rd.end, rd.slice)
  {
    hide WriterStep, Filter, Elems, AppendHeap, AppendSlice;
  }

  /** A query of series x that loads the index after `before` and copies the buffer
      after `between` too. */
  function QueryRun(before: seq<Event>, r: nat, x: Series, start: Word, end: Word, between: seq<Event>): seq<Event> {
    before + [Load(r, x, start, end)] + between
  }

  lemma QueryState(before: seq<Event>, r: nat, x: Series, start: Word, end: Word, between: seq<Event>)
    requires forall e | e in between :: !(e.Load? && e.r == r)
    requires CopyReady(Run(INITIAL, QueryRun(before, r, x, start, end, between)), r)
    ensures var evs := QueryRun(before, r, x, start, end, between);
            var w := Run(INITIAL, evs);
            var rd, loaded, all := w.readers[r], Rotations(before, x), Rotations(evs, x);
            && Inv(w) && rd.x == x && rd.start == start && rd.end == end
            && Elems(w.heap, rd.slice) == loaded && Entries(w.heap, w.index, x) == all && loaded <= all
            && Mem(Run(INITIAL, before), x).history <= Mem(w, x).history
  {
    hide Next;
    var evs := QueryRun(before, r, x, start, end, between);
    assert evs == before + ([Load(r, x, start, end)] + between);
    InvRun(evs);
    QueryKeeps(before, r, x, start, end, between);
    SnapshotImmutable(before, [Load(r, x, start, end)] + between, x);
    NoUpdateLost(before, x); NoUpdateLost(evs, x);
  }

  /** A query loads the index, and later copies the buffer. For any timestamps it
      returns, filtered and in order, the writes that were in indexed chunks at the
      load, unless their chunk is pruned, and those not in indexed chunks at the
      copy. It misses exactly the pruned chunks and the writes its series rotated
      between the two reads. */
  lemma QueryAgainstRotation(before: seq<Event>, r: nat, x: Series, start: Word, end: Word, between: seq<Event>)
    requires forall e | e in between :: !(e.Load? && e.r == r)
    requires CopyReady(Run(INITIAL, QueryRun(before, r, x, start, end, between)), r)
    ensures var w := Run(INITIAL, QueryRun(before, r, x, start, end, between));
            var all, k := Rotations(QueryRun(before, r, x, start, end, between), x), |Rotations(before, x)|;
            var h, files, marks := Mem(w, x).history, Mem(w, x).files, Seen(w, x, k, start, end);
            && Mem(Run(INITIAL, before), x).history <= h && |marks| == |h| && k <= |all|
            && Next(w, Copy(r)).readers[r] == Done(Filter(Select(h, marks), start, end))
            && Select(h, Unmarked(marks)) == Pruned(files, all[..k], start, end) + Points(files, all[k..])
  {
    hide Next, Filter, Rotations, Run, Inv;
    var w := Run(INITIAL, QueryRun(before, r, x, start, end, between));
    QueryState(before, r, x, start, end, between);
    var loaded, all := Rotations(before, x), Rotations(QueryRun(before, r, x, start, end, between), x);
    assert all[..|loaded|] == loaded;
    ReaderAnswer(w, r);
    SeenWrites(w, x, |Rotations(before, x)|, start, end);
  }

  /** Such a query returns no write more often than it was written, and returns
      every write in range, in order, exactly when no pruned chunk and no chunk
      rotated between its two reads holds one. */
  lemma QueryAtMostOnce(before: seq<Event>, r: nat, x: Series, start: Word, end: Word, between: seq<Event>)
    requires forall e | e in between :: !(e.Load? && e.r == r)
    requires CopyReady(Run(INITIAL, QueryRun(before, r, x, start, end, between)), r)
    ensures var w := Run(INITIAL, QueryRun(before, r, x, start, end, between));
            var all, k := Rotations(QueryRun(before, r, x, start, end, between), x), |Rotations(before, x)|;
            var h, files, rd := Mem(w, x).history, Mem(w, x).files, Next(w, Copy(r)).readers[r];
            && rd.Done? && k <= |all| && multiset(rd.result) <= multiset(Filter(h, start, end)) <= multiset(h)
            && (rd.result == Filter(h, start, end)
                <==> Filter(Pruned(files, all[..k], start, end) + Points(files, all[k..]), start, end) == [])
  {
    hide Next;
    var w := Run(INITIAL, QueryRun(before, r, x, start, end, between));
    QueryAgainstRotation(before, r, x, start, end, between);
    SelectSplits(Mem(w, x).history, Seen(w, x, |Rotations(before, x)|, start, end), start, end);
    FilterWithin(Mem(w, x).history, start, end);
  }

  // ---------------------------------------------------------------- timestamps in order

  /** The times of a piece of a nondecreasing list lie between its first and last. */
  lemma BetweenEnds(all: seq<Point>, from: nat, p: Point)
    requires from < |all| && Nondecreasing(all) && p in all[from..]
    ensures all[from..][0].ts <= p.ts <= all[|all| - 1].ts
  {
    var k :| 0 <= k < |all[from..]| && all[from..][k] == p;
    assert all[from + k] == p;
  }

  /** With times in order, pruned chunks hold no point in range. */
  lemma {:induction false} PrunedOutOfRange(m: SeriesMem, es: seq<Entry>, start: Word, end: Word)
    requires (forall i | 0 <= i < |es| :: Stored(m, es[i])) && Nondecreasing(Points(m.files, es))
    ensures Filter(Pruned(m.files, es, start, end), start, end) == []
  {
    hide Filter, Points, Pruned, Contents, Picked, Nondecreasing;
    if es == [] {
      NothingSelected(m.files, 0, start, end);
      NothingFiltered(start, end);
    } else {
      var init, e := es[..|es| - 1], es[|es| - 1];
      assert Stored(m, e) && es == init + [e];
      var chunk, before := m.files[e.id], Points(m.files, init);
      PointsAppend(m.files, init, e);
      NondecreasingPrefix(before, Points(m.files, es));
      PrunedOutOfRange(m, init, start, end);
      PickLast(m.files, es, start, end);
      FilterConcat(Pruned(m.files, init, start, end), chunk, start, end);
      assert Pruned(m.files, init, start, end) + [] == Pruned(m.files, init, start, end);
      if !RangesMeet(e.start, e.end, start, end) {
        assert (before + chunk)[|before|..] == chunk;
        forall p | p in chunk ensures !InRange(p, start, end) {
          BetweenEnds(before + chunk, |before|, p);
        }
        FilterNone(chunk, start, end);
      }
    }
  }

  lemma {:induction false} PointsSplit(files: map<nat, seq<Point>>, es: seq<Entry>, fs: seq<Entry>)
    requires forall i | 0 <= i < |fs| :: fs[i].id in files
    ensures Points(files, es + fs) == Points(files, es) + Points(files, fs)
  {
    hide Points;
    if fs == [] {
      assert es + fs == es;
      NothingSelected(files, 0, 0, 0);
    } else {
      var init, e := fs[..|fs| - 1], fs[|fs| - 1];
      PointsSplit(files, es, init);
      assert es + fs == es + init + [e] && fs == init + [e];
      PointsAppend(files, es + init, e); PointsAppend(files, init, e);
    }
  }

  lemma NondecreasingPrefix(ps: seq<Point>, all: seq<Point>)
    requires ps <= all && Nondecreasing(all)
    ensures Nondecreasing(ps)
  {
    forall i, j | 0 <= i < j < |ps| ensures ps[i].ts <= ps[j].ts {
      assert all[i].ts <= all[j].ts;
    }
  }

  /** With nondecreasing timestamps pruning drops nothing, so the query returns
      every write in range, in order, exactly when no chunk its series rotated
      between the two reads holds one; in particular when it rotated none. */
  lemma QueryInTimeOrder(before: seq<Event>, r: nat, x: Series, start: Word, end: Word, between: seq<Event>)
    requires forall e | e in between :: !(e.Load? && e.r == r)
    requires CopyReady(Run(INITIAL, QueryRun(before, r, x, start, end, between)), r)
    requires Nondecreasing(Mem(Run(INITIAL, QueryRun(before, r, x, start, end, between)), x).history)
    ensures var w := Run(INITIAL, QueryRun(before, r, x, start, end, between));
            var all, k := Rotations(QueryRun(before, r, x, start, end, between), x), |Rotations(before, x)|;
            var h, rd := Mem(w, x).history, Next(w, Copy(r)).readers[r];
            && rd.Done? && k <= |all|
            && (rd.result == Filter(h, start, end) <==> Filter(Points(Mem(w, x).files, all[k..]), start, end) == [])
            && (k == |all| ==> rd.result == Filter(h, start, end))
  {
    hide Next, Filter, Points, Pruned, Rotations, Run, Elems, Nondecreasing, Settled, IndexingOk, Separate, ReaderOk;
    var evs := QueryRun(before, r, x, start, end, between);
    var w := Run(INITIAL, evs);
    QueryState(before, r, x, start, end, between);
    QueryAtMostOnce(before, r, x, start, end, between);
    var m, all, k := Mem(w, x), Rotations(evs, x), |Rotations(before, x)|;
    assert SeriesOk(all, m);
    assert all == all[..k] + all[k..];
    PointsSplit(m.files, all[..k], all[k..]);
    NondecreasingPrefix(Points(m.files, all[..k]), m.history);
    PrunedOutOfRange(m, all[..k], start, end);
    FilterConcat(Pruned(m.files, all[..k], start, end), Points(m.files, all[k..]), start, end);
    if k == |all| {
      assert all[k..] == [];
      NothingSelected(m.files, 0, start, end);
      NothingFiltered(start, end);
    }
  }
}
