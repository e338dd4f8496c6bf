/** One series of the store as a state machine. The directory is a map from
    file names to bytes, every disk operation is a step of its own, and an
    operation can succeed, fail, or be cut short by a crash of the process. */
module StoreMachine {
  import opened Words
  import opened Wrappers
  import opened ChunkFile
  import opened CodecTheorems
  import opened Wal
  import opened IndexFile

  const MAX_POINTS_PER_CHUNK: nat := 10_000
  const MAX_CHUNK_DURATION_SECS: int := 7_200

  /** The largest id the chunk file-name pattern matches. */
  const MAX_CHUNK_ID: nat := 9999

  const WAL_NAME := "wal.log"
  const INDEX_NAME := "index.dat"
  const TMP_SUFFIX := ".tmp"

  // ---------------------------------------------------------------- directory

  type Dir = map<string, seq<Byte>>

  function WalOf(dir: Dir): seq<Byte> {
    if WAL_NAME in dir then dir[WAL_NAME] else []
  }

  function ToBytes(s: string): (b: seq<Byte>)
    ensures |b| == |s|
  {
    seq(|s|, i requires 0 <= i < |s| => s[i] as int % 256)
  }

  function FromBytes(b: seq<Byte>): (s: string)
    ensures |s| == |b|
  {
    seq(|b|, i requires 0 <= i < |b| => b[i] as char)
  }

  /** loadIndexFile: None when index.dat is missing or has a bad line. */
  function LoadIndexFile(dir: Dir): Option<seq<IndexEntry>> {
    if INDEX_NAME in dir then LoadIndex(FromBytes(dir[INDEX_NAME])) else None
  }

  /** The entry a header scan makes for a file, if its name and magic match. */
  function ScanEntry(dir: Dir, name: string): Option<IndexEntry> {
    if name !in dir || MatchChunkName(name).None? then None
    else
      match ReadHeader(dir[name])
      case NoHeader => None
      case HeaderRead(start, end, count) => Some(IndexEntry(name, start, end, count))
  }

  ghost predicate DistinctNames(es: seq<IndexEntry>) {
    forall i, j | 0 <= i < j < |es| :: es[i].name != es[j].name
  }

  /** A possible result of scanChunkHeaders: one entry per readable chunk, in
      some order of start times (the sort is not stable). */
  ghost predicate IsScan(dir: Dir, es: seq<IndexEntry>) {
    && DistinctNames(es)
    && (forall e | e in es :: ScanEntry(dir, e.name) == Some(e))
    && (forall name | name in dir && ScanEntry(dir, name).Some? :: ScanEntry(dir, name).value in es)
    && (forall i, j | 0 <= i < j < |es| :: es[i].start <= es[j].start)
  }

  /** The entries opening the store can end up with. */
  ghost predicate Rebuilt(dir: Dir, es: seq<IndexEntry>) {
    match LoadIndexFile(dir)
    case Some(loaded) => es == loaded
    case None => IsScan(dir, es)
  }

  /** The largest chunk id the file-name pattern finds among the entries. */
  function MaxID(es: seq<IndexEntry>): nat {
    if es == [] then 0
    else
      var rest := MaxID(es[1..]);
      match MatchChunkName(es[0].name)
      case Some(id) => if id > rest then id else rest
      case None => rest
  }

  /** The points a reader gets from a chunk file; unreadable chunks are skipped. */
  function ChunkContents(dir: Dir, name: string): seq<Point> {
    if name !in dir then []
    else
      match ReadChunk(dir[name])
      case ChunkPoints(pts) => pts
      case _ => []
  }

  /** The points a reader gets from the indexed chunks, in index order. */
  function Committed(dir: Dir, es: seq<IndexEntry>): seq<Point> {
    if es == [] then [] else Committed(dir, es[..|es| - 1]) + ChunkContents(dir, es[|es| - 1].name)
  }

  /** The buffer each chunk file was written from. */
  type Chunks = map<string, seq<Point>>

  /** The points the indexed chunks were written from, in index order. */
  function Written(chunks: Chunks, es: seq<IndexEntry>): seq<Point> {
    if es == [] then [] else Written(chunks, es[..|es| - 1]) + BufferOf(chunks, es[|es| - 1].name)
  }

  function BufferOf(chunks: Chunks, name: string): seq<Point> {
    if name in chunks then chunks[name] else []
  }

  // ---------------------------------------------------------------- states and events

  datatype Mem = Mem(buffer: seq<Point>, nextID: Word32, index: seq<IndexEntry>)

  /** A rotation in flight: the caller's point to acknowledge, the chunk's
      entry, and the bytes of the chunk and of the new index.dat. */
  datatype Rotation = Rotation(ack: Option<Point>, entry: IndexEntry, chunk: seq<Byte>, index: seq<Byte>)

  datatype Target = ToChunk | ToIndex
  datatype Stage = Create | Write | Rename

  /** What the series' writer is about to do. */
  datatype Pc =
    | Down
    | Idle
    | Logging(p: Point)
    | Replacing(r: Rotation, target: Target, stage: Stage)
    | Truncating(ack: Option<Point>)

  /** Besides disk and memory: every point submitted, every point whose log
      append succeeded, and every point acknowledged, in order, and the buffer each
      chunk file was written from. */
  datatype State = State(
    dir: Dir, mem: Mem, pc: Pc,
    submitted: seq<Point>, logged: seq<Point>, acked: seq<Point>, chunks: Chunks)

  datatype Rewrite = Untouched | Torn(n: nat) | Replaced

  datatype Event =
    | Submit(p: Point)              // WritePoint is called
    | Flush                         // FlushSeries is called
    | Advance                       // the pending disk operation succeeds
    | Fail(n: nat)                  // it returns an error after n bytes
    | Crash(n: nat)                 // the process dies after n of its bytes
    | Open(scan: seq<IndexEntry>, rewrite: Rewrite, up: bool)  // the store is opened; up unless it dies on the way

  const FRESH := State(map[], Mem([], 0, []), Idle, [], [], [], map[])

  predicate ShouldRotate(buf: seq<Point>) {
    || |buf| >= MAX_POINTS_PER_CHUNK
    || (|buf| >= 2 && Sub64(ToSigned(buf[|buf| - 1].ts), ToSigned(buf[0].ts)) >= MAX_CHUNK_DURATION_SECS)
  }

  /** The two limits in numbers: 10,000 points, or 7,200 seconds from the first to the
      last of at least two, as a difference modulo 2^64 that is below 2^63. */
  lemma RotatesAtLimits(buf: seq<Point>)
    ensures ShouldRotate(buf) <==>
              || |buf| >= 10_000
              || (|buf| >= 2
                  && var d := (buf[|buf| - 1].ts - buf[0].ts) % 0x1_0000_0000_0000_0000;
                     7_200 <= d < 0x8000_0000_0000_0000)
  {
  }

  function EntryOf(name: string, buf: seq<Point>): IndexEntry
    requires buf != []
  {
    IndexEntry(name, buf[0].ts, buf[|buf| - 1].ts, |buf| % TWO_TO_32)
  }

  // ---------------------------------------------------------------- transitions

  /** rotateLocked up to its first disk operation. */
  function BeginRotation(s: State, ack: Option<Point>): State
    requires s.mem.buffer != []
  {
    var id := (s.mem.nextID + 1) % TWO_TO_32;
    var entry := EntryOf(ChunkName(id), s.mem.buffer);
    var r := Rotation(ack, entry, ChunkBytes(s.mem.buffer), ToBytes(IndexText(s.mem.index + [entry])));
    s.(mem := s.mem.(nextID := id), pc := Replacing(r, ToChunk, Create))
  }

  function FinalName(r: Rotation, target: Target): string {
    if target == ToChunk then r.entry.name else INDEX_NAME
  }

  function TmpName(r: Rotation, target: Target): string {
    FinalName(r, target) + TMP_SUFFIX
  }

  function DataOf(r: Rotation, target: Target): seq<Byte> {
    if target == ToChunk then r.chunk else r.index
  }

  function AckOf(ack: Option<Point>): seq<Point> {
    match ack
    case None => []
    case Some(p) => [p]
  }

  function AppendWal(dir: Dir, bytes: seq<Byte>): Dir {
    dir[WAL_NAME := WalOf(dir) + bytes]
  }

  function TruncateWal(dir: Dir): Dir {
    if WAL_NAME in dir then dir[WAL_NAME := []] else dir
  }

  function RenameFile(dir: Dir, from: string, to: string): Dir
    requires from in dir
  {
    (dir - {from})[to := dir[from]]
  }

  /** The point is in the log and in the buffer. */
  function Buffered(s: State, p: Point): State {
    s.(dir := AppendWal(s.dir, Record(p)), mem := s.mem.(buffer := s.mem.buffer + [p]),
       logged := s.logged + [p])
  }

  /** The pending disk operation completes. */
  function AdvanceStep(s: State): State {
    match s.pc
    case Down => s
    case Idle => s
    case Logging(p) =>
      var s' := Buffered(s, p);
      if ShouldRotate(s'.mem.buffer) then BeginRotation(s', Some(p))
      else s'.(pc := Idle, acked := s.acked + [p])
    case Replacing(r, target, Create) =>
      s.(dir := s.dir[TmpName(r, target) := []], pc := Replacing(r, target, Write))
    case Replacing(r, target, Write) =>
      s.(dir := s.dir[TmpName(r, target) := DataOf(r, target)], pc := Replacing(r, target, Rename))
    case Replacing(r, target, Rename) =>
      if TmpName(r, target) !in s.dir then s
      else
        var dir := RenameFile(s.dir, TmpName(r, target), FinalName(r, target));
        if target == ToChunk then
          s.(dir := dir, pc := Replacing(r, ToIndex, Create), chunks := s.chunks[r.entry.name := s.mem.buffer])
        else s.(dir := dir, mem := s.mem.(index := s.mem.index + [r.entry], buffer := []), pc := Truncating(r.ack))
    case Truncating(ack) =>
      s.(dir := TruncateWal(s.dir), pc := Idle, acked := s.acked + AckOf(ack))
  }

  /** The directory when the pending operation stops after n bytes. */
  function Partial(s: State, n: nat): Dir {
    match s.pc
    case Logging(p) => if n <= RECORD_SIZE then AppendWal(s.dir, Record(p)[..n]) else s.dir
    case Replacing(r, target, Write) =>
      if n <= |DataOf(r, target)| then s.dir[TmpName(r, target) := DataOf(r, target)[..n]] else s.dir
    case _ => s.dir
  }

  /** An error ends the call without acknowledgement, except that a failed log
      truncation is ignored. */
  function FailStep(s: State, n: nat): State {
    match s.pc
    case Down => s
    case Idle => s
    case Truncating(ack) => s.(pc := Idle, acked := s.acked + AckOf(ack))
    case _ => s.(dir := Partial(s, n), pc := Idle)
  }

  /** What opening does to the directory: only a scan rewrites index.dat. */
  function RewriteIndex(dir: Dir, scan: seq<IndexEntry>, rewrite: Rewrite): Dir {
    var text := ToBytes(IndexText(scan));
    match rewrite
    case Untouched => dir
    case Torn(n) => if n <= |text| then dir[INDEX_NAME + TMP_SUFFIX := text[..n]] else dir
    case Replaced => (dir - {INDEX_NAME + TMP_SUFFIX})[INDEX_NAME := text]
  }

  function OpenStep(s: State, scan: seq<IndexEntry>, rewrite: Rewrite, up: bool): State {
    var loaded := LoadIndexFile(s.dir);
    var entries := if loaded.Some? then loaded.value else scan;
    var dir := if loaded.Some? then s.dir else RewriteIndex(s.dir, scan, rewrite);
    if up then s.(dir := dir, mem := Mem(Recovered(WalOf(s.dir)), MaxID(entries) % TWO_TO_32, entries), pc := Idle)
    else s.(dir := dir)
  }

  /** The state after an event; an event that cannot happen changes nothing. */
  ghost function Next(s: State, e: Event): State {
    match e
    case Submit(p) => if s.pc.Idle? then s.(pc := Logging(p), submitted := s.submitted + [p]) else s
    case Flush => if s.pc.Idle? && s.mem.buffer != [] then BeginRotation(s, None) else s
    case Advance => AdvanceStep(s)
    case Fail(n) => FailStep(s, n)
    case Crash(n) => if s.pc.Down? then s else s.(dir := Partial(s, n), mem := Mem([], 0, []), pc := Down)
    case Open(scan, rewrite, up) =>
      if s.pc.Down? && Rebuilt(s.dir, if LoadIndexFile(s.dir).Some? then LoadIndexFile(s.dir).value else scan)
      then OpenStep(s, scan, rewrite, up)
      else s
  }

  ghost function Run(s: State, evs: seq<Event>): State {
    if evs == [] then s else Next(Run(s, evs[..|evs| - 1]), evs[|evs| - 1])
  }

  /** The points a crash-free reader of a running store can see. */
  function Visible(s: State): seq<Point> {
    Committed(s.dir, s.mem.index) + s.mem.buffer
  }

  /** The points the store holds: what its chunks were written from, and the buffer.
      This is what is visible as far as the chunks decode to what was written. */
  function Kept(s: State): seq<Point> {
    Written(s.chunks, s.mem.index) + s.mem.buffer
  }

  /** Every indexed chunk was written from a buffer in the codec's domain. */
  ghost predicate Lossless(s: State) {
    forall e | e in s.mem.index :: InDomain(BufferOf(s.chunks, e.name))
  }

  // ---------------------------------------------------------------- assumptions on runs

  /** The buffer the event starts to rotate, if any. */
  function Rotating(s: State, e: Event): seq<Point> {
    match e
    case Flush => if s.pc.Idle? then s.mem.buffer else []
    case Advance => if s.pc.Logging? && ShouldRotate(s.mem.buffer + [s.pc.p]) then s.mem.buffer + [s.pc.p] else []
    case _ => []
  }

  /** The rotation the event starts, if any, uses a chunk id up to the limit and
      lengths that fit their fields. */
  predicate RotatesSafely(s: State, e: Event, limit: nat) {
    Rotating(s, e) != [] ==> s.mem.nextID < limit && LengthsFit(Rotating(s, e))
  }

  /** Every rotation of the run is safe. */
  ghost predicate RotatesFairly(evs: seq<Event>, limit: nat) {
    evs != [] ==>
      var before, e := evs[..|evs| - 1], evs[|evs| - 1];
      RotatesFairly(before, limit) && RotatesSafely(Run(FRESH, before), e, limit)
  }

  predicate RotatesInDomain(s: State, e: Event) {
    Rotating(s, e) != [] ==> InDomain(Rotating(s, e))
  }

  /** Every rotation of the run starts with a buffer in the codec's domain. */
  ghost predicate RotatesLosslessly(evs: seq<Event>) {
    evs != [] ==>
      var before, e := evs[..|evs| - 1], evs[|evs| - 1];
      RotatesLosslessly(before) && RotatesInDomain(Run(FRESH, before), e)
  }

  /** The event puts bytes into the log, a whole record or a part of one. */
  predicate Appends(s: State, e: Event) {
    s.pc.Logging? && (e.Advance? || ((e.Fail? || e.Crash?) && 0 < e.n <= RECORD_SIZE))
  }

  /** Nothing is appended behind a torn record. Any append may itself be torn. */
  ghost predicate AppendsFairly(evs: seq<Event>) {
    evs != [] ==>
      var before, e := evs[..|evs| - 1], evs[|evs| - 1];
      AppendsFairly(before) && (Appends(Run(FRESH, before), e) ==> |WalOf(Run(FRESH, before).dir)| % RECORD_SIZE == 0)
  }

  ghost predicate Fair(evs: seq<Event>, limit: nat) {
    RotatesFairly(evs, limit) && RotatesLosslessly(evs) && AppendsFairly(evs)
  }

  /** The point whose record an interrupted log append completed. */
  function Completed(s: State, n: nat): seq<Point> {
    if s.pc.Logging? && n == RECORD_SIZE then [s.pc.p] else []
  }
}
