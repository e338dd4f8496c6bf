/** The store of all series: each has a directory and a write path of its own,
    made on its first write. */
module Stores {
  import opened Words
  import opened IndexFile
  import opened StoreMachine
  import opened StoreInvariant
  import opened StoreTheorems
  import opened StoreImpl

  type Series = string

  /** What the store shows of a series to a query. */
  datatype StoreView = StoreView(dir: Dir, index: seq<IndexEntry>, buffer: seq<Point>)

  const NO_STORE := StoreView(map[], [], [])

  /** The points a raw query of all times reads. */
  function PointsOf(v: StoreView): seq<Point> {
    Committed(v.dir, v.index) + v.buffer
  }

  /** Until a crash, a call that leaves the index alone adds to what is shown exactly
      what it added to the buffer; every call adds to what is held exactly what it
      logged. */
  lemma CallShows(before: seq<Event>, after: seq<Event>)
    requires Unbroken(before, after) && RotatesFairly(after, MAX_CHUNK_ID) && !Run(FRESH, before).pc.Down?
    ensures Run(FRESH, before).logged <= Run(FRESH, after).logged
    ensures var s, s' := Run(FRESH, before), Run(FRESH, after);
            var more := s'.logged[|s.logged|..];
            && Kept(s') == Kept(s) + more
            && (s'.mem.index == s.mem.index && s'.mem.buffer == s.mem.buffer + more ==>
                  Visible(s') == Visible(s) + more)
  {
    hide Run, RotatesFairly, Committed, Kept;
    var s, s' := Run(FRESH, before), Run(FRESH, after);
    UnbrokenRun(before, after);
    CommittedFrame(s.dir, s'.dir, s.mem.index);
  }

  class Store {
    var series: map<Series, SeriesStore>

    /** No two series share a write path or a directory, and no call is in progress. */
    ghost predicate Valid()
      reads this, series.Values, set x | x in series :: series[x].disk
    {
      && (forall x | x in series :: series[x].Ready())
      && (forall x, y | x in series && y in series && x != y ::
         series[x] != series[y] && series[x].disk != series[y].disk)
    }

    /** Every point of a series acknowledged so far. */
    ghost function Acked(x: Series): seq<Point>
      reads this, series.Values
    {
      if x in series then series[x].state.acked else []
    }

    /** The machine's view of a series, new if nobody wrote to it. */
    ghost function StateOf(x: Series): State
      reads this, series.Values
    {
      if x in series then series[x].state else FRESH
    }

    ghost function EventsOf(x: Series): seq<Event>
      reads this, series.Values
    {
      if x in series then series[x].events else []
    }

    /** Failed operations on the directory of a series, truncations aside. */
    ghost function Failures(x: Series): nat
      reads this, series.Values, set y | y in series :: series[y].disk
    {
      if x in series then series[x].disk.failures else 0
    }

    ghost function Shown(x: Series): StoreView
      reads this, series.Values, set y | y in series :: series[y].disk
    {
      if x in series then StoreView(series[x].disk.files, series[x].index, series[x].buffer) else NO_STORE
    }

    constructor (series: map<Series, SeriesStore>)
      requires forall x | x in series :: series[x].Ready()
      requires forall x, y | x in series && y in series && x != y ::
               series[x] != series[y] && series[x].disk != series[y].disk
      ensures Valid() && this.series == series
    {
      this.series := series;
    }

    /** The write path of a series, new if nobody wrote to it before. */
    method GetSeriesState(x: Series) returns (st: SeriesStore)
      requires Valid()
      modifies this
      ensures Valid() && x in series && st == series[x]
      ensures forall y :: Acked(y) == old(Acked(y))
      ensures StateOf(x) == old(StateOf(x)) && EventsOf(x) == old(EventsOf(x)) && Shown(x) == old(Shown(x))
      ensures Failures(x) == old(Failures(x))
      ensures if x in old(series) then series == old(series)
              else series == old(series)[x := st] && fresh(st) && fresh(st.disk)
    {
      hide Run, Committed;
      if x in series {
        return series[x];
      }
      var disk := new Directory();
      st := new SeriesStore.New(disk);
      series := series[x := st];
    }

    /** Writes to one series and leaves the others alone. A write can fail after it
        was logged: then it is not acknowledged, but buffered, and shown. */
    method WritePoint(x: Series, ts: Word, bits: Word) returns (ok: bool)
      requires Valid()
      modifies this, if x in series then {series[x], series[x].disk} else {}
      ensures Valid() && x in series && series.Keys == old(series.Keys) + {x}
      ensures Acked(x) == old(Acked(x)) + if ok then [Point(ts, bits)] else []
      ensures Failures(x) == old(Failures(x)) + if ok then 0 else 1
      ensures forall y | y != x :: Acked(y) == old(Acked(y)) && Shown(y) == old(Shown(y))
      ensures || StateOf(x).logged == old(StateOf(x)).logged + [Point(ts, bits)]
              || (!ok && StateOf(x).logged == old(StateOf(x)).logged)
      ensures !ok ==> Shown(x).index == old(Shown(x)).index
      ensures !ok ==> Shown(x).buffer == old(Shown(x)).buffer + StateOf(x).logged[|old(StateOf(x)).logged|..]
      ensures RotatesFairly(EventsOf(x), MAX_CHUNK_ID) ==>
                var more := StateOf(x).logged[|old(StateOf(x)).logged|..];
                && Kept(StateOf(x)) == Kept(old(StateOf(x))) + more
                && (!ok ==> PointsOf(Shown(x)) == old(PointsOf(Shown(x))) + more)
    {
      hide SeriesStore.Ready, Run, RotatesFairly, Visible, Kept, PointsOf, Valid;
      var st := GetSeriesState(x);
      ok := WriteTo(x, st, ts, bits);
    }

    method WriteTo(x: Series, st: SeriesStore, ts: Word, bits: Word) returns (ok: bool)
      requires Valid() && x in series && st == series[x]
      modifies st, st.disk
      ensures Valid()
      ensures Acked(x) == old(Acked(x)) + if ok then [Point(ts, bits)] else []
      ensures Failures(x) == old(Failures(x)) + if ok then 0 else 1
      ensures forall y | y != x :: Acked(y) == old(Acked(y)) && Shown(y) == old(Shown(y))
      ensures || StateOf(x).logged == old(StateOf(x)).logged + [Point(ts, bits)]
              || (!ok && StateOf(x).logged == old(StateOf(x)).logged)
      ensures !ok ==> Shown(x).index == old(Shown(x)).index
      ensures !ok ==> Shown(x).buffer == old(Shown(x)).buffer + StateOf(x).logged[|old(StateOf(x)).logged|..]
      ensures RotatesFairly(EventsOf(x), MAX_CHUNK_ID) ==>
                var more := StateOf(x).logged[|old(StateOf(x)).logged|..];
                && Kept(StateOf(x)) == Kept(old(StateOf(x))) + more
                && (!ok ==> PointsOf(Shown(x)) == old(PointsOf(Shown(x))) + more)
    {
      hide SeriesStore.Ready, Run, RotatesFairly, Visible, Kept, PointsOf;
      ghost var events := st.events;
      ReadyState(st);
      ok := st.WritePoint(ts, bits);
      ReadyState(st);
      if RotatesFairly(st.events, MAX_CHUNK_ID) {
        CallShows(events, st.events);
      }
    }

    /** What a query reads of a series. */
    method Read(x: Series) returns (v: StoreView)
      ensures v == Shown(x)
    {
      v := NO_STORE;
      if x in series {
        v := StoreView(series[x].disk.files, series[x].index, series[x].buffer);
      }
    }
  }

  lemma ReadyState(st: SeriesStore)
    requires st.Ready()
    ensures st.state == Run(FRESH, st.events) && st.state.pc.Idle?
    ensures st.state.mem == Mem(st.buffer, st.nextID, st.index)
    ensures PointsOf(StoreView(st.disk.files, st.index, st.buffer)) == Visible(st.state)
  {
    hide Run;
  }
}
