/** Concurrent queries and rotations of several series. Writers hold their
    series' lock, publish copies of the index under a global lock, and readers
    load the index without any lock; every step of every thread is an event. */
module Snapshots {
  import opened Words
  import opened Wrappers
  import opened RawQuery

  type Series = string

  /** An index entry: which chunk file, and the time range it records. */
  datatype Entry = Entry(id: nat, start: Word, end: Word)

  // ---------------------------------------------------------------- slices

  /** A slice header. Headers may share a backing array, whose length is the
      capacity; appending within the capacity writes into the shared array. */
  datatype Slice = Slice(arr: nat, len: nat)
  type Heap = seq<seq<Entry>>
  type Snapshot = map<Series, Slice>

  const NIL := Slice(0, 0)

  predicate InHeap(heap: Heap, sl: Slice) {
    sl.arr < |heap| && sl.len <= |heap[sl.arr]|
  }

  function Elems(heap: Heap, sl: Slice): seq<Entry> {
    if InHeap(heap, sl) then heap[sl.arr][..sl.len] else []
  }

  function SliceOf(snap: Snapshot, x: Series): Slice {
    if x in snap then snap[x] else NIL
  }

  function Entries(heap: Heap, snap: Snapshot, x: Series): seq<Entry> {
    Elems(heap, SliceOf(snap, x))
  }

  predicate HasRoom(heap: Heap, sl: Slice) {
    sl.len > 0 && InHeap(heap, sl) && sl.len < |heap[sl.arr]|
  }

  /** The heap after append(sl, e); a full array is copied to a new one with
      some spare capacity. */
  function AppendHeap(heap: Heap, sl: Slice, e: Entry, spare: nat): Heap {
    if HasRoom(heap, sl) then heap[sl.arr := heap[sl.arr][sl.len := e]]
    else heap + [Elems(heap, sl) + [e] + seq(spare, _ => Entry(0, 0, 0))]
  }

  function AppendSlice(heap: Heap, sl: Slice): Slice {
    if HasRoom(heap, sl) then Slice(sl.arr, sl.len + 1) else Slice(|heap|, |Elems(heap, sl)| + 1)
  }

  // ---------------------------------------------------------------- threads

  /** Where a series' writer is, from taking the series lock to releasing it. */
  datatype Writer =
    | Unlocked
    | Locked                                  // the point, if any, is logged and buffered
    | Written(e: Entry)                       // the chunk file is in place
    | Indexing(e: Entry, next: Snapshot)      // holds the index lock, new map built
    | Published                               // new map swapped in, buffer not cleared yet

  datatype SeriesMem = SeriesMem(
    writer: Writer, buffer: seq<Point>, nextID: nat, files: map<nat, seq<Point>>,
    history: seq<Point>)                      // every write, in order

  /** Where a query is: going through the index entries it loaded, reading the
      chunks it picked, or finished. */
  datatype Reader =
    | Scanning(x: Series, start: Word, end: Word, slice: Slice, ids: seq<nat>, i: nat)
    | Reading(x: Series, start: Word, end: Word, slice: Slice, ids: seq<nat>, i: nat, points: seq<Point>)
    | Done(result: seq<Point>)

  datatype World = World(
    heap: Heap, index: Snapshot, indexLock: Option<Series>, mem: map<Series, SeriesMem>, readers: map<nat, Reader>)

  datatype Event =
    | Append(x: Series, p: Point)             // takes the lock, logs and buffers
    | Lock(x: Series)                         // FlushSeries takes the lock
    | Unlock(x: Series)                       // nothing to rotate
    | WriteChunk(x: Series, ok: bool)
    | LockIndex(x: Series, spare: nat)        // copies the map, appends the entry
    | Publish(x: Series, ok: bool)            // writes index.dat and swaps
    | Clear(x: Series)                        // empties the buffer, releases the lock
    | Load(r: nat, x: Series, start: Word, end: Word)
    | Scan(r: nat)
    | ReadFile(r: nat)
    | Copy(r: nat)                            // copies the buffer under the lock, filters

  const INITIAL := World([], map[], None, map[], map[])

  function Mem(w: World, x: Series): SeriesMem {
    if x in w.mem then w.mem[x] else SeriesMem(Unlocked, [], 0, map[], [])
  }

  function EntryFor(id: nat, buf: seq<Point>): Entry
    requires buf != []
  {
    Entry(id, buf[0].ts, buf[|buf| - 1].ts)
  }

  function Contents(files: map<nat, seq<Point>>, ids: seq<nat>): seq<Point> {
    if ids == [] then []
    else
      var last := ids[|ids| - 1];
      Contents(files, ids[..|ids| - 1]) + if last in files then files[last] else []
  }

  // ---------------------------------------------------------------- steps

  /** What the writer of series x does to its own memory. */
  function WriterStep(m: SeriesMem, e: Event): SeriesMem {
    match e
    case Append(_, p) =>
      if m.writer.Unlocked? then m.(writer := Locked, buffer := m.buffer + [p], history := m.history + [p]) else m
    case Lock(_) => if m.writer.Unlocked? then m.(writer := Locked) else m
    case Unlock(_) => if m.writer.Locked? then m.(writer := Unlocked) else m
    case WriteChunk(_, ok) =>
      if !m.writer.Locked? || m.buffer == [] then m
      else
        var id := m.nextID + 1;
        if ok then m.(writer := Written(EntryFor(id, m.buffer)), nextID := id, files := m.files[id := m.buffer])
        else m.(writer := Unlocked, nextID := id)
    case Clear(_) => if m.writer.Published? then m.(writer := Unlocked, buffer := []) else m
    case _ => m
  }

  function LockIndexStep(w: World, x: Series, spare: nat): World {
    var m := Mem(w, x);
    if !m.writer.Written? || w.indexLock.Some? then w
    else
      var sl, e := SliceOf(w.index, x), m.writer.e;
      w.(heap := AppendHeap(w.heap, sl, e, spare), indexLock := Some(x),
         mem := w.mem[x := m.(writer := Indexing(e, w.index[x := AppendSlice(w.heap, sl)]))])
  }

  function PublishStep(w: World, x: Series, ok: bool): World {
    var m := Mem(w, x);
    if !m.writer.Indexing? then w
    else if ok then w.(index := m.writer.next, indexLock := None, mem := w.mem[x := m.(writer := Published)])
    else w.(indexLock := None, mem := w.mem[x := m.(writer := Unlocked)])
  }

  function ReaderStep(w: World, rd: Reader, e: Event): Reader {
    match rd
    case Scanning(x, start, end, sl, ids, i) =>
      if !e.Scan? then rd
      else if i < |Elems(w.heap, sl)| then
        var entry := Elems(w.heap, sl)[i];
        Scanning(x, start, end, sl, ids + (if RangesMeet(entry.start, entry.end, start, end) then [entry.id] else []),
            i + 1)
      else Reading(x, start, end, sl, ids, 0, [])
    case Reading(x, start, end, sl, ids, i, points) =>
      if e.ReadFile? && i < |ids| then
        var chunk := if ids[i] in Mem(w, x).files then Mem(w, x).files[ids[i]] else [];
        Reading(x, start, end, sl, ids, i + 1, points + chunk)
      else if e.Copy? && i == |ids| && Mem(w, x).writer.Unlocked? then
        Done(Filter(points + Mem(w, x).buffer, start, end))
      else rd
    case Done(_) => rd
  }

  function Next(w: World, e: Event): World {
    match e
    case LockIndex(x, spare) => LockIndexStep(w, x, spare)
    case Publish(x, ok) => PublishStep(w, x, ok)
    case Load(r, x, start, end) =>
      w.(readers := w.readers[r := Scanning(x, start, end, SliceOf(w.index, x), [], 0)])
    case Scan(r) => if r in w.readers then w.(readers := w.readers[r := ReaderStep(w, w.readers[r], e)]) else w
    case ReadFile(r) => if r in w.readers then w.(readers := w.readers[r := ReaderStep(w, w.readers[r], e)]) else w
    case Copy(r) => if r in w.readers then w.(readers := w.readers[r := ReaderStep(w, w.readers[r], e)]) else w
    case _ => w.(mem := w.mem[e.x := WriterStep(Mem(w, e.x), e)])
  }

  function Run(w: World, evs: seq<Event>): World {
    if evs == [] then w else Next(Run(w, evs[..|evs| - 1]), evs[|evs| - 1])
  }

  // ---------------------------------------------------------------- invariant

  /** The points of a list of entries. */
  function Points(files: map<nat, seq<Point>>, es: seq<Entry>): seq<Point> {
    if es == [] then []
    else
      var id := es[|es| - 1].id;
      Points(files, es[..|es| - 1]) + if id in files then files[id] else []
  }

  function Picked(es: seq<Entry>, start: Word, end: Word): seq<nat> {
    if es == [] then []
    else
      var last := es[|es| - 1];
      Picked(es[..|es| - 1], start, end) + if RangesMeet(last.start, last.end, start, end) then [last.id] else []
  }

  ghost predicate Stored(m: SeriesMem, e: Entry) {
    e.id in m.files && e.id <= m.nextID && m.files[e.id] != [] && e == EntryFor(e.id, m.files[e.id])
  }

  /** The published chunks and the buffer are the writes, in order. */
  ghost predicate SeriesOk(es: seq<Entry>, m: SeriesMem) {
    && (forall i | 0 <= i < |es| :: Stored(m, es[i]))
    && Points(m.files, es) + (if m.writer.Published? then [] else m.buffer) == m.history
    && (m.writer.Written? || m.writer.Indexing? ==>
          Stored(m, m.writer.e) && m.files[m.writer.e.id] == m.buffer)
  }

  /** Series do not share backing arrays. */
  ghost predicate Separate(heap: Heap, snap: Snapshot) {
    && (forall x | x in snap :: snap[x].len > 0 && InHeap(heap, snap[x]))
    && (forall x, y | x in snap && y in snap && x != y :: snap[x].arr != snap[y].arr)
  }

  /** The map being published differs from the index in one appended entry. */
  ghost predicate IndexingOk(w: World, x: Series, e: Entry, next: Snapshot) {
    && w.indexLock == Some(x)
    && x in next && next == w.index[x := next[x]] && Separate(w.heap, next)
    && Elems(w.heap, next[x]) == Entries(w.heap, w.index, x) + [e]
    && (x in w.index && next[x].arr == w.index[x].arr ==> next[x].len > w.index[x].len)
  }

  /** Nobody will write below the end of this slice any more. */
  ghost predicate Settled(w: World, x: Series, sl: Slice) {
    sl.len > 0 ==>
      && InHeap(w.heap, sl)
      && (forall y | y in w.index && w.index[y].arr == sl.arr :: y == x && sl.len <= w.index[y].len)
      && (w.indexLock.Some? && Mem(w, w.indexLock.value).writer.Indexing? ==>
            var y, next := w.indexLock.value, Mem(w, w.indexLock.value).writer.next;
            y in next && next[y].arr == sl.arr ==> y == x && sl.len <= next[y].len)
  }

  ghost predicate ReaderOk(w: World, rd: Reader) {
    rd.Done? ||
    (&& Settled(w, rd.x, rd.slice)
     && Elems(w.heap, rd.slice) <= Entries(w.heap, w.index, rd.x)
     && match rd
        case Scanning(_, start, end, sl, ids, i) =>
          i <= |Elems(w.heap, sl)| && ids == Picked(Elems(w.heap, sl)[..i], start, end)
        case Reading(x, start, end, sl, ids, i, points) =>
          && ids == Picked(Elems(w.heap, sl), start, end)
          && i <= |ids| && points == Contents(Mem(w, x).files, ids[..i])
        case Done(_) => true)
  }

  ghost predicate Inv(w: World) {
    && Separate(w.heap, w.index)
    && (forall x :: SeriesOk(Entries(w.heap, w.index, x), Mem(w, x)))
    && (forall x :: Mem(w, x).writer.Indexing? ==> IndexingOk(w, x, Mem(w, x).writer.e, Mem(w, x).writer.next))
    && (w.indexLock.Some? ==> Mem(w, w.indexLock.value).writer.Indexing?)
    && (forall r | r in w.readers :: ReaderOk(w, w.readers[r]))
  }

  // ---------------------------------------------------------------- frames

  /** Chunk files are never written twice: ids only grow. */
  ghost predicate FilesKept(m: SeriesMem, m': SeriesMem) {
    m.nextID <= m'.nextID && forall id | id in m.files && id <= m.nextID ::
        id in m'.files && m'.files[id] == m.files[id]
  }

  lemma {:induction false} PointsFrame(m: SeriesMem, m': SeriesMem, es: seq<Entry>)
    requires FilesKept(m, m') && forall i | 0 <= i < |es| :: Stored(m, es[i])
    ensures Points(m'.files, es) == Points(m.files, es)
    ensures forall i | 0 <= i < |es| :: Stored(m', es[i])
  {
    if es != [] {
      PointsFrame(m, m', es[..|es| - 1]);
      assert Stored(m, es[|es| - 1]);
    }
  }

  ghost predicate OnDisk(m: SeriesMem, ids: seq<nat>) {
    forall i | 0 <= i < |ids| :: ids[i] in m.files && ids[i] <= m.nextID
  }

  lemma {:induction false} PickedStored(m: SeriesMem, es: seq<Entry>, start: Word, end: Word)
    requires forall i | 0 <= i < |es| :: Stored(m, es[i])
    ensures OnDisk(m, Picked(es, start, end))
  {
    if es != [] {
      var e := es[|es| - 1];
      PickedStored(m, es[..|es| - 1], start, end);
      assert Stored(m, e);
      var ids := Picked(es[..|es| - 1], start, end);
      assert OnDisk(m, ids + [e.id]) && ids + [] == ids;
    }
  }

  lemma {:induction false} ContentsFrame(m: SeriesMem, m': SeriesMem, ids: seq<nat>)
    requires FilesKept(m, m') && OnDisk(m, ids)
    ensures Contents(m'.files, ids) == Contents(m.files, ids)
  {
    if ids != [] {
      ContentsFrame(m, m', ids[..|ids| - 1]);
    }
  }

  lemma PointsAppend(files: map<nat, seq<Point>>, es: seq<Entry>, e: Entry)
    requires e.id in files
    ensures Points(files, es + [e]) == Points(files, es) + files[e.id]
  {
    assert (es + [e])[..|es|] == es;
  }

  // ---------------------------------------------------------------- writer steps

  lemma WriterKeeps(es: seq<Entry>, m: SeriesMem, e: Event)
    requires SeriesOk(es, m)
    ensures SeriesOk(es, WriterStep(m, e)) && FilesKept(m, WriterStep(m, e))
    ensures WriterStep(m, e).writer.Indexing? <==> m.writer.Indexing?
    ensures m.writer.Indexing? ==> WriterStep(m, e) == m
  {
    hide Points;
    PointsFrame(m, WriterStep(m, e), es);
  }

  /** A step of one writer's own memory disturbs nobody. */
  lemma WriterStepInv(w: World, x: Series, e: Event)
    requires Inv(w)
    ensures Inv(w.(mem := w.mem[x := WriterStep(Mem(w, x), e)]))
  {
    hide SeriesOk, WriterStep, Elems, Separate;
    var m := Mem(w, x);
    var m' := WriterStep(m, e);
    var w' := w.(mem := w.mem[x := m']);
    WriterKeeps(Entries(w.heap, w.index, x), m, e);
    forall y ensures Mem(w', y) == if y == x then m' else Mem(w, y) {}
    forall y | Mem(w', y).writer.Indexing? ensures IndexingOk(w', y, Mem(w', y).writer.e, Mem(w', y).writer.next) {
      IndexingFrame(w, w', y);
    }
    forall r | r in w.readers ensures ReaderOk(w', w.readers[r]) {
      ReaderFrame(w, w', w.readers[r], x);
    }
  }

  lemma IndexingFrame(w: World, w': World, x: Series)
    requires w'.heap == w.heap && w'.index == w.index && w'.indexLock == w.indexLock
    requires Mem(w, x).writer.Indexing? && Mem(w', x) == Mem(w, x)
    requires IndexingOk(w, x, Mem(w, x).writer.e, Mem(w, x).writer.next)
    ensures IndexingOk(w', x, Mem(w', x).writer.e, Mem(w', x).writer.next)
  {
  }

  lemma ReaderFrame(w: World, w': World, rd: Reader, x: Series)
    requires Inv(w) && ReaderOk(w, rd)
    requires w'.heap == w.heap && w'.index == w.index && w'.indexLock == w.indexLock
    requires forall y | y != x :: Mem(w', y) == Mem(w, y)
    requires FilesKept(Mem(w, x), Mem(w', x)) && (Mem(w, x).writer.Indexing? ==> Mem(w', x) == Mem(w, x))
    requires Mem(w', x).writer.Indexing? <==> Mem(w, x).writer.Indexing?
    ensures ReaderOk(w', rd)
  {
    hide Contents, Picked, Separate, IndexingOk, Points;
    if rd.Reading? {
      var es := Elems(w.heap, rd.slice);
      assert SeriesOk(Entries(w.heap, w.index, rd.x), Mem(w, rd.x));
      assert forall i | 0 <= i < |es| :: es[i] == Entries(w.heap, w.index, rd.x)[i];
      PickedStored(Mem(w, rd.x), es, rd.start, rd.end);
      if rd.x == x {
        assert OnDisk(Mem(w, x), rd.ids[..rd.i]);
        ContentsFrame(Mem(w, x), Mem(w', x), rd.ids[..rd.i]);
      }
    }
  }

  // ---------------------------------------------------------------- building the new map

  lemma Appended(heap: Heap, sl: Slice, e: Entry, spare: nat)
    requires sl.len > 0 ==> InHeap(heap, sl)
    ensures var heap', sl' := AppendHeap(heap, sl, e, spare), AppendSlice(heap, sl);
            && InHeap(heap', sl') && sl'.len > 0 && Elems(heap', sl') == Elems(heap, sl) + [e]
            && (sl.len > 0 && sl'.arr == sl.arr ==> sl'.len > sl.len)
            && (sl'.arr != sl.arr || sl.len == 0 ==> sl'.arr == |heap|)
  {
  }

  /** Appending to the longest slice of an array changes no shorter one. */
  lemma AppendKeeps(heap: Heap, sl: Slice, e: Entry, spare: nat, other: Slice)
    requires sl.len > 0 ==> InHeap(heap, sl)
    requires other.len > 0 ==> InHeap(heap, other) && (sl.len > 0 && other.arr == sl.arr ==> other.len <= sl.len)
    ensures Elems(AppendHeap(heap, sl, e, spare), other) == Elems(heap, other)
    ensures other.len > 0 ==> InHeap(AppendHeap(heap, sl, e, spare), other)
  {
  }

  lemma LockedSettled(w: World, x: Series, spare: nat, y: Series, sl: Slice)
    requires Inv(w) && Mem(w, x).writer.Written? && w.indexLock.None? && Settled(w, y, sl)
    ensures Settled(LockIndexStep(w, x, spare), y, sl)
    ensures Elems(LockIndexStep(w, x, spare).heap, sl) == Elems(w.heap, sl)
  {
    hide SeriesOk, ReaderOk, IndexingOk, AppendHeap, Elems;
    var own := SliceOf(w.index, x);
    Appended(w.heap, own, Mem(w, x).writer.e, spare);
    AppendKeeps(w.heap, own, Mem(w, x).writer.e, spare, sl);
  }

  lemma LockIndexInv(w: World, x: Series, spare: nat)
    requires Inv(w)
    ensures Inv(LockIndexStep(w, x, spare))
  {
    hide SeriesOk, ReaderOk;
    var w' := LockIndexStep(w, x, spare);
    if Mem(w, x).writer.Written? && w.indexLock.None? {
      IndexKept(w, x, spare);
      LockedIndexing(w, x, spare);
      forall y ensures SeriesOk(Entries(w'.heap, w'.index, y), Mem(w', y)) {
        SameSeries(w, x, spare, y);
      }
      forall y | Mem(w', y).writer.Indexing? ensures IndexingOk(w', y, Mem(w', y).writer.e, Mem(w', y).writer.next) {
        NobodyIndexing(w, y);
      }
      forall r | r in w'.readers ensures ReaderOk(w', w'.readers[r]) {
        LockedReader(w, x, spare, w.readers[r]);
      }
    }
  }

  lemma NobodyIndexing(w: World, y: Series)
    requires Inv(w) && w.indexLock.None?
    ensures !Mem(w, y).writer.Indexing?
  {
  }

  lemma IndexKept(w: World, x: Series, spare: nat)
    requires Separate(w.heap, w.index) && Mem(w, x).writer.Written?
    ensures var heap' := AppendHeap(w.heap, SliceOf(w.index, x), Mem(w, x).writer.e, spare);
            Separate(heap', w.index) && forall y :: Entries(heap', w.index, y) == Entries(w.heap, w.index, y)
  {
    hide AppendHeap, Elems;
    var own, e := SliceOf(w.index, x), Mem(w, x).writer.e;
    forall y ensures Entries(AppendHeap(w.heap, own, e, spare), w.index, y) == Entries(w.heap, w.index, y) {
      AppendKeeps(w.heap, own, e, spare, SliceOf(w.index, y));
    }
    forall y | y in w.index ensures InHeap(AppendHeap(w.heap, own, e, spare), w.index[y]) {
      AppendKeeps(w.heap, own, e, spare, w.index[y]);
    }
  }

  lemma LockedIndexing(w: World, x: Series, spare: nat)
    requires Separate(w.heap, w.index) && Mem(w, x).writer.Written? && w.indexLock.None?
    ensures var w' := LockIndexStep(w, x, spare);
            Mem(w', x).writer.Indexing? && IndexingOk(w', x, Mem(w', x).writer.e, Mem(w', x).writer.next)
  {
    hide AppendHeap, Elems, AppendSlice;
    IndexKept(w, x, spare);
    Appended(w.heap, SliceOf(w.index, x), Mem(w, x).writer.e, spare);
  }

  lemma SameSeries(w: World, x: Series, spare: nat, y: Series)
    requires Inv(w) && Mem(w, x).writer.Written? && w.indexLock.None?
    ensures var w' := LockIndexStep(w, x, spare); SeriesOk(Entries(w'.heap, w'.index, y), Mem(w', y))
  {
    hide AppendHeap, Elems, ReaderOk;
    IndexKept(w, x, spare);
    assert SeriesOk(Entries(w.heap, w.index, y), Mem(w, y));
  }

  lemma LockedReader(w: World, x: Series, spare: nat, rd: Reader)
    requires Inv(w) && Mem(w, x).writer.Written? && w.indexLock.None? && ReaderOk(w, rd)
    ensures ReaderOk(LockIndexStep(w, x, spare), rd)
  {
    hide SeriesOk, Elems, AppendHeap;
    if !rd.Done? {
      IndexKept(w, x, spare);
      LockedSettled(w, x, spare, rd.x, rd.slice);
    }
  }

  // ---------------------------------------------------------------- publishing

  lemma PublishedSettled(w: World, x: Series, ok: bool, y: Series, sl: Slice)
    requires Inv(w) && Mem(w, x).writer.Indexing? && Settled(w, y, sl)
    ensures Settled(PublishStep(w, x, ok), y, sl)
  {
    hide SeriesOk, ReaderOk, Elems, Separate;
    assert IndexingOk(w, x, Mem(w, x).writer.e, Mem(w, x).writer.next);
  }

  /** Publishing appends one entry to its own series and keeps all others. */
  lemma PublishedEntries(w: World, x: Series, y: Series)
    requires Inv(w) && Mem(w, x).writer.Indexing?
    ensures Entries(w.heap, Mem(w, x).writer.next, y)
         == if y == x then Entries(w.heap, w.index, y) + [Mem(w, x).writer.e] else Entries(w.heap, w.index, y)
  {
    hide SeriesOk, ReaderOk, Elems, Separate;
    assert IndexingOk(w, x, Mem(w, x).writer.e, Mem(w, x).writer.next);
  }

  lemma PublishedSeries(w: World, x: Series, ok: bool, y: Series)
    requires Inv(w) && Mem(w, x).writer.Indexing?
    ensures var w' := PublishStep(w, x, ok); SeriesOk(Entries(w'.heap, w'.index, y), Mem(w', y))
  {
    hide ReaderOk, IndexingOk, Elems, Separate, Points;
    assert SeriesOk(Entries(w.heap, w.index, y), Mem(w, y));
    PublishedEntries(w, x, y);
    if y == x {
      var m, es := Mem(w, x), Entries(w.heap, w.index, x);
      PointsAppend(m.files, es, m.writer.e);
      assert Points(m.files, es + [m.writer.e]) + [] == Points(m.files, es) + m.buffer;
    }
  }

  lemma PublishInv(w: World, x: Series, ok: bool)
    requires Inv(w)
    ensures Inv(PublishStep(w, x, ok))
  {
    hide SeriesOk, ReaderOk, Elems, Settled, Points;
    var w' := PublishStep(w, x, ok);
    if Mem(w, x).writer.Indexing? {
      assert IndexingOk(w, x, Mem(w, x).writer.e, Mem(w, x).writer.next);
      forall y ensures SeriesOk(Entries(w'.heap, w'.index, y), Mem(w', y)) {
        PublishedSeries(w, x, ok, y);
      }
      forall y ensures Mem(w', y).writer.Indexing? ==> IndexingOk(w', y, Mem(w', y).writer.e, Mem(w', y).writer.next) {
        assert Mem(w, y).writer.Indexing? ==> w.indexLock == Some(y);
      }
      forall r | r in w'.readers ensures ReaderOk(w', w'.readers[r]) {
        PublishedReader(w, x, ok, w.readers[r]);
      }
    }
  }

  lemma PublishedReader(w: World, x: Series, ok: bool, rd: Reader)
    requires Inv(w) && Mem(w, x).writer.Indexing? && ReaderOk(w, rd)
    ensures ReaderOk(PublishStep(w, x, ok), rd)
  {
    hide SeriesOk, Settled, Elems, Picked, Contents, IndexingOk, Separate;
    if !rd.Done? {
      PublishedSettled(w, x, ok, rd.x, rd.slice);
      PublishedEntries(w, x, rd.x);
    }
  }

  // ---------------------------------------------------------------- reader steps

  lemma LoadedOk(w: World, x: Series, start: Word, end: Word)
    requires Inv(w)
    ensures ReaderOk(w, Scanning(x, start, end, SliceOf(w.index, x), [], 0))
  {
    hide SeriesOk, Points;
    if w.indexLock.Some? {
      var y := w.indexLock.value;
      assert IndexingOk(w, y, Mem(w, y).writer.e, Mem(w, y).writer.next);
      if x in w.index && y != x {
        assert Mem(w, y).writer.next[x] == w.index[x];
      }
    }
    assert Elems(w.heap, SliceOf(w.index, x))[..0] == [];
  }

  lemma ReaderStepOk(w: World, rd: Reader, e: Event)
    requires ReaderOk(w, rd)
    ensures ReaderOk(w, ReaderStep(w, rd, e))
  {
    hide Settled, Elems, Filter, Picked, Contents;
    match rd
    case Scanning(x, start, end, sl, ids, i) =>
      var es := Elems(w.heap, sl);
      if i < |es| { PickNext(es, i, start, end); } else { assert es[..i] == es; }
      NoContents(Mem(w, x).files);
    case Reading(x, start, end, sl, ids, i, points) =>
      if i < |ids| { ReadNext(Mem(w, x).files, ids, i); }
    case Done(_) =>
  }

  lemma PickNext(es: seq<Entry>, i: nat, start: Word, end: Word)
    requires i < |es|
    ensures Picked(es[..i + 1], start, end)
         == Picked(es[..i], start, end) + if RangesMeet(es[i].start, es[i].end, start, end) then [es[i].id] else []
  {
    assert es[..i + 1][..i] == es[..i];
  }

  lemma ReadNext(files: map<nat, seq<Point>>, ids: seq<nat>, i: nat)
    requires i < |ids|
    ensures Contents(files, ids[..i + 1])
         == Contents(files, ids[..i]) + if ids[i] in files then files[ids[i]] else []
  {
    assert ids[..i + 1][..i] == ids[..i];
  }

  lemma NoContents(files: map<nat, seq<Point>>)
    ensures Contents(files, []) == []
  {
  }

  lemma ReadersInv(w: World, r: nat, rd: Reader)
    requires Inv(w) && ReaderOk(w, rd)
    ensures Inv(w.(readers := w.readers[r := rd]))
  {
    hide SeriesOk, Separate, Elems, Contents, Picked;
    var w' := w.(readers := w.readers[r := rd]);
    forall x ensures Mem(w', x) == Mem(w, x) {}
    forall x ensures SeriesOk(Entries(w'.heap, w'.index, x), Mem(w', x)) {
      assert SeriesOk(Entries(w.heap, w.index, x), Mem(w, x));
    }
    forall k | k in w'.readers ensures ReaderOk(w', w'.readers[k]) {
      assert k != r ==> ReaderOk(w, w.readers[k]);
    }
  }

  lemma InvStep(w: World, e: Event)
    requires Inv(w)
    ensures Inv(Next(w, e))
  {
    hide Inv;
    match e
    case LockIndex(x, spare) => LockIndexInv(w, x, spare);
    case Publish(x, ok) => PublishInv(w, x, ok);
    case Load(r, x, start, end) =>
      LoadedOk(w, x, start, end);
      ReadersInv(w, r, Scanning(x, start, end, SliceOf(w.index, x), [], 0));
    case Scan(r) => ReaderInv(w, r, e);
    case ReadFile(r) => ReaderInv(w, r, e);
    case Copy(r) => ReaderInv(w, r, e);
    case _ => WriterStepInv(w, e.x, e);
  }

  lemma ReaderInv(w: World, r: nat, e: Event)
    requires Inv(w)
    ensures r in w.readers ==> Inv(w.(readers := w.readers[r := ReaderStep(w, w.readers[r], e)]))
  {
    hide ReaderStep, ReaderOk, SeriesOk, IndexingOk;
    if r in w.readers {
      ReaderStepOk(w, w.readers[r], e);
      ReadersInv(w, r, ReaderStep(w, w.readers[r], e));
    }
  }

  lemma {:induction false} InvRun(evs: seq<Event>)
    ensures Inv(Run(INITIAL, evs))
  {
    hide Inv, Next;
    if evs == [] {
      InvInitial();
    } else {
      InvRun(evs[..|evs| - 1]);
      InvStep(Run(INITIAL, evs[..|evs| - 1]), evs[|evs| - 1]);
    }
  }

  lemma InvInitial()
    ensures Inv(INITIAL)
  {
  }
}
