/** What a query gets from each tier: the hourly windows that meet the range and
    the samples they stand for, and when the planner reads raw points. */
module RollupQueries {
  import opened Words
  import opened Stores
  import opened Rollup
  import opened RollupTheorems
  import opened RawQuery
  import StoreMachine
  import StoreTheorems

  // ---------------------------------------------------------------- the hourly tier

  /** A time in the hour [w, w + 3600) and in the range [start, end]. */
  predicate InBoth(t: int, w: Word, start: Word, end: Word) {
    w <= t < w + HOUR && start <= t <= end
  }

  ghost predicate Meets(w: Word, start: Word, end: Word) {
    exists t :: InBoth(t, w, start, end)
  }

  lemma SelectedMeets(w: Word, start: Word, end: Word)
    requires w + HOUR < TWO_TO_64 && start <= end
    ensures Selected(w, start, end) <==> Meets(w, start, end)
  {
    if Selected(w, start, end) {
      assert InBoth(if start > w then start else w, w, start, end);
    }
  }

  /** The filter on rollup records selects exactly the windows that meet the range,
      for every range, if and only if the window ends below 2^64. */
  lemma SelectedExactly(w: Word)
    ensures (forall start: Word, end: Word | start <= end :: Selected(w, start, end) <==> Meets(w, start, end))
        <==> w + HOUR < TWO_TO_64
  {
    if w + HOUR < TWO_TO_64 {
      forall start: Word, end: Word | start <= end ensures Selected(w, start, end) <==> Meets(w, start, end) {
        SelectedMeets(w, start, end);
      }
    } else {
      assert InBoth(w, w, w, w) && !Selected(w, w, w);
    }
  }

  function SelectedBy(start: Word, end: Word): Word -> bool {
    (w: Word) => Selected(w, start, end)
  }

  lemma {:induction false} ReadAgg(rs: seq<Record>, start: Word, end: Word)
    ensures OfRecords(ReadRollup(rs, start, end), SelectedBy(start, end)) == OfRecords(rs, SelectedBy(start, end))
  {
    hide Selected, Plus, OfRecord;
    if rs != [] {
      var init, r := rs[..|rs| - 1], rs[|rs| - 1];
      ReadAgg(init, start, end);
      var read := ReadRollup(init, start, end);
      assert (read + [r])[..|read|] == read && read + [] == read;
    }
  }

  lemma {:induction false} ReadMembers(rs: seq<Record>, start: Word, end: Word, r: Record)
    ensures r in ReadRollup(rs, start, end) <==> r in rs && Selected(r.windowStart, start, end)
  {
    hide Selected;
    if rs != [] {
      ReadMembers(rs[..|rs| - 1], start, end, r);
      assert rs == rs[..|rs| - 1] + [rs[|rs| - 1]];
    }
  }

  /** The records an hourly query returns are those of the hourly file whose window
      the range selects; their counts, sums, minima and maxima, with the open hour
      if it is selected too, are those of all samples in the selected windows. */
  lemma HourlyTier(evs: seq<Event>, x: Series, start: Word, end: Word)
    requires Countable(History(evs, x))
    ensures var s, sel := Run(evs, x), SelectedBy(start, end);
            var recs := ReadRollup(s.hourly, start, end);
            && (forall r :: r in recs <==> r in s.hourly && Selected(r.windowStart, start, end))
            && Plus(OfRecords(recs, sel), OfAcc(s.acc, sel)) == OfSamples(History(evs, x), sel)
            && OfRecords(recs, sel).count == OfSamples(History(evs, x), sel).count - OfAcc(s.acc, sel).count
  {
    var s := Run(evs, x);
    Conservation(evs, x, SelectedBy(start, end));
    ReadAgg(s.hourly, start, end);
    forall r ensures r in ReadRollup(s.hourly, start, end) <==> r in s.hourly && Selected(r.windowStart, start, end) {
      ReadMembers(s.hourly, start, end, r);
    }
  }

  // ---------------------------------------------------------------- the planner

  /** The signed width compares like the unsigned distance from start to end, up to
      half the word range. */
  lemma WidthExactly(start: Word, end: Word, t: int)
    requires 0 < t < TWO_TO_63
    ensures Width(start, end) >= t <==> t <= (end - start) % TWO_TO_64 < TWO_TO_63
  {
    if end >= start {
      assert (end - start) % TWO_TO_64 == end - start;
    } else {
      assert (end - start) % TWO_TO_64 == end - start + TWO_TO_64;
    }
  }

  ghost predicate HasSelected(recs: seq<Record>, start: Word, end: Word) {
    exists r :: r in recs && Selected(r.windowStart, start, end)
  }

  lemma ReadNothing(recs: seq<Record>, start: Word, end: Word)
    ensures ReadRollup(recs, start, end) != [] <==> HasSelected(recs, start, end)
  {
    var read := ReadRollup(recs, start, end);
    if read != [] {
      ReadMembers(recs, start, end, read[0]);
    }
    if HasSelected(recs, start, end) {
      var r :| r in recs && Selected(r.windowStart, start, end);
      ReadMembers(recs, start, end, r);
    }
  }

  /** The range spans at least t seconds and less than half the word range. */
  predicate Spans(start: Word, end: Word, t: int) {
    t <= (end - start) % TWO_TO_64 < TWO_TO_63
  }

  /** The daily tier answers exactly ranges of two days or more that select a daily
      record; the hourly tier exactly ranges of three hours or more that select an
      hourly record and that the daily tier does not answer. */
  lemma TierChosen(s: SeriesRollup, v: StoreView, start: Word, end: Word)
    ensures var a := Answer(s, v, start, end);
            && (a.DailyResult? <==> Spans(start, end, 2 * DAY) && HasSelected(s.daily, start, end))
            && (a.HourlyResult? <==>
                  !a.DailyResult? && Spans(start, end, 3 * HOUR) && HasSelected(s.hourly, start, end))
            && (!a.RawResult? ==> forall r :: r in a.recs <==>
                  r in (if a.DailyResult? then s.daily else s.hourly) && Selected(r.windowStart, start, end))
  {
    hide ReadRollup, Raw, Width, Selected;
    WidthExactly(start, end, HOURLY_THRESHOLD_SECS);
    WidthExactly(start, end, DAILY_THRESHOLD_SECS);
    ReadNothing(s.daily, start, end); ReadNothing(s.hourly, start, end);
    forall r
      ensures r in ReadRollup(s.daily, start, end) <==> r in s.daily && Selected(r.windowStart, start, end)
      ensures r in ReadRollup(s.hourly, start, end) <==> r in s.hourly && Selected(r.windowStart, start, end)
    {
      ReadMembers(s.daily, start, end, r); ReadMembers(s.hourly, start, end, r);
    }
  }

  /** Ranges under three hours, and inverted ones, never reach the rollup tiers. */
  lemma ShortRangeIsRaw(s: SeriesRollup, v: StoreView, start: Word, end: Word)
    requires (end - start) % TWO_TO_64 < HOURLY_THRESHOLD_SECS || (end - start) % TWO_TO_64 >= TWO_TO_63
    ensures Answer(s, v, start, end) == RawResult(Raw(v.dir, v.index, v.buffer, start, end))
  {
    hide ReadRollup, Raw, Width;
    WidthExactly(start, end, HOURLY_THRESHOLD_SECS);
    WidthExactly(start, end, DAILY_THRESHOLD_SECS);
  }

  lemma {:induction false} InvertedFilter(ps: seq<Point>, start: Word, end: Word)
    requires start > end
    ensures Filter(ps, start, end) == []
  {
    if ps != [] {
      InvertedFilter(ps[..|ps| - 1], start, end);
    }
  }

  /** A window that starts by the end of a range inverted by more than 2^63 ends
      long before its start. */
  lemma FarInvertedSelectsNothing(w: Word, start: Word, end: Word)
    requires end + TWO_TO_63 < start
    ensures !Selected(w, start, end)
  {
    assert w <= end ==> (w + HOUR) % TWO_TO_64 == w + HOUR;
  }

  /** A range whose end lies before its start is empty, also when the signed width
      wraps to a large positive number and the rollup tiers are consulted. */
  lemma InvertedRangeIsEmpty(s: SeriesRollup, v: StoreView, start: Word, end: Word)
    requires end < start
    ensures Answer(s, v, start, end) == RawResult([])
  {
    hide Width, ReadRollup, Selected;
    if start <= end + TWO_TO_63 {
      assert (end - start) % TWO_TO_64 == end - start + TWO_TO_64;
      ShortRangeIsRaw(s, v, start, end);
    } else {
      forall w: Word ensures !Selected(w, start, end) {
        FarInvertedSelectsNothing(w, start, end);
      }
      ReadNothing(s.daily, start, end); ReadNothing(s.hourly, start, end);
    }
    InvertedFilter(Gathered(v.dir, Found(v.index, start, end)) + v.buffer, start, end);
  }

  /** A query of less than three hours against a store that has not crashed, with
      nondecreasing timestamps and chunks in the codec's domain, answers with exactly the writes in range, whatever
      the rollup files hold. */
  lemma ShortRangeIsExact(evs: seq<StoreMachine.Event>, s: SeriesRollup, start: Word, end: Word)
    requires StoreMachine.RotatesFairly(evs, StoreMachine.MAX_CHUNK_ID) && StoreTheorems.CrashFree(evs)
    requires Nondecreasing(StoreMachine.Run(StoreMachine.FRESH, evs).logged)
    requires StoreMachine.Lossless(StoreMachine.Run(StoreMachine.FRESH, evs))
    requires start <= end < start + HOURLY_THRESHOLD_SECS
    ensures var w := StoreMachine.Run(StoreMachine.FRESH, evs);
            var v := StoreView(w.dir, w.mem.index, w.mem.buffer);
            Answer(s, v, start, end) == RawResult(Filter(w.logged, start, end))
  {
    hide Answer, Raw, StoreMachine.Run, StoreMachine.Lossless, Filter;
    var w := StoreMachine.Run(StoreMachine.FRESH, evs);
    assert (end - start) % TWO_TO_64 == end - start;
    ShortRangeIsRaw(s, StoreView(w.dir, w.mem.index, w.mem.buffer), start, end);
    RawQueryIsFilter(evs);
  }
}
