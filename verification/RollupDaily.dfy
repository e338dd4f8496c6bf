/** Daily records: at most one per day, and exact when written. */
module RollupDaily {
  import opened Words
  import opened Wrappers
  import opened Stores
  import opened Rollup
  import opened RollupTheorems

  // ---------------------------------------------------------------- the hours of a day

  /** The records whose window lies in day d. */
  function OfDay(rs: seq<Record>, d: Word): seq<Record> {
    if rs == [] then []
    else
      var last := rs[|rs| - 1];
      OfDay(rs[..|rs| - 1], d) + if DayStart(last.windowStart) == d then [last] else []
  }

  /** The last hour of a day is only recognised in whole days. */
  lemma LastHourFits(w: Word)
    requires w == (DayStart(w) + 23 * HOUR) % TWO_TO_64
    ensures DayStart(w) + DAY < TWO_TO_64 && w == DayStart(w) + 23 * HOUR
  {
    assert TWO_TO_64 == 213503982334601 * DAY + 25216;
  }

  lemma DayStartIdempotent(w: Word)
    ensures DayStart(DayStart(w)) == DayStart(w) && DayStart(BucketStart(w)) == DayStart(w)
  {
  }

  lemma SelectedDay(w: Word, d: Word)
    requires d == DayStart(d) && d + DAY < TWO_TO_64
    ensures Selected(w, d, (d + 86399) % TWO_TO_64) && InDay(w, d) <==> DayStart(w) == d
  {
    hide DayStart;
    DayBounds(w, d); WholeDayEnd(d);
    assert (d + 86399) % TWO_TO_64 == d + 86399 && (d + DAY) % TWO_TO_64 == d + DAY;
    if d <= w < d + DAY {
      assert (w + HOUR) % TWO_TO_64 == w + HOUR;
    }
  }

  lemma DayBounds(w: Word, d: Word)
    requires d == DayStart(d)
    ensures DayStart(w) == d <==> d <= w < d + DAY
  {
  }

  /** A day that ends below 2^64 ends well below it. */
  lemma WholeDayEnd(d: Word)
    requires d == DayStart(d) && d + DAY < TWO_TO_64
    ensures d + DAY + 25216 <= TWO_TO_64
  {
    assert TWO_TO_64 == 213503982334601 * DAY + 25216;
  }

  lemma {:induction false} HourlyIsOfDay(rs: seq<Record>, d: Word)
    requires d == DayStart(d) && d + DAY < TWO_TO_64
    ensures HourlyForDay(rs, d) == OfDay(rs, d)
  {
    if rs != [] {
      var init, r := rs[..|rs| - 1], rs[|rs| - 1];
      HourlyIsOfDay(init, d);
      SelectedDay(r.windowStart, d);
      var read := ReadRollup(init, d, (d + 86399) % TWO_TO_64);
      if Selected(r.windowStart, d, (d + 86399) % TWO_TO_64) {
        assert (read + [r])[..|read|] == read;
      } else {
        assert ReadRollup(rs, d, (d + 86399) % TWO_TO_64) == read;
      }
    }
  }

  lemma OfDayAppend(rs: seq<Record>, r: Record, d: Word)
    ensures OfDay(rs + [r], d) == if DayStart(r.windowStart) == d then OfDay(rs, d) + [r] else OfDay(rs, d)
  {
    assert (rs + [r])[..|rs|] == rs;
    assert OfDay(rs, d) + [] == OfDay(rs, d);
  }

  lemma TotalsLast(recs: seq<Record>, r: Record)
    ensures TotalCount(recs + [r]) == (TotalCount(recs) + r.count) % TWO_TO_32
    ensures WeightedSum(recs + [r]) == WeightedSum(recs) + r.avg * r.count as real
    ensures LeastMin(recs + [r]) == Lesser(LeastMin(recs), r.min)
    ensures GreatestMax(recs + [r]) == Greater(GreatestMax(recs), r.max)
  {
    hide Lesser, Greater;
    assert (recs + [r])[..|recs|] == recs;
  }

  lemma RecordsLast(rs: seq<Record>, r: Record, sel: Word -> bool)
    ensures OfRecords(rs + [r], sel)
         == if sel(r.windowStart) then Plus(OfRecords(rs, sel), OfRecord(r)) else OfRecords(rs, sel)
  {
    assert (rs + [r])[..|rs|] == rs;
  }

  /** Combining the hours of a day gives the day's aggregate. */
  lemma {:induction false} DayTotals(rs: seq<Record>, d: Word)
    requires OfRecords(rs, OneDay(d)).count < TWO_TO_32
    ensures var recs, agg := OfDay(rs, d), OfRecords(rs, OneDay(d));
            TotalCount(recs) == agg.count && WeightedSum(recs) == agg.sum
            && LeastMin(recs) == agg.min && GreatestMax(recs) == agg.max
  {
    hide Lesser, Greater, OfDay, OfRecords, TotalCount, WeightedSum, LeastMin, GreatestMax, DayStart, OfRecord;
    if rs == [] {
      NoTotals(d);
    } else {
      var init, r := rs[..|rs| - 1], rs[|rs| - 1];
      assert rs == init + [r];
      RecordsLast(init, r, OneDay(d));
      RecordCount(r);
      DayTotals(init, d);
      OfDayAppend(init, r, d);
      TotalsLast(OfDay(init, d), r);
    }
  }

  lemma NoTotals(d: Word)
    ensures OfDay([], d) == [] && OfRecords([], OneDay(d)) == ZERO
    ensures TotalCount([]) == 0 && WeightedSum([]) == 0.0 && LeastMin([]) == PosInf && GreatestMax([]) == NegInf
  {
  }

  lemma RecordCount(r: Record)
    ensures OfRecord(r) == Agg(r.count, r.avg * r.count as real, r.min, r.max)
  {
  }

  ghost predicate Positive(rs: seq<Record>) {
    forall i | 0 <= i < |rs| :: rs[i].count > 0
  }

  lemma {:induction false} PositiveTotal(rs: seq<Record>, d: Word)
    requires Positive(rs)
    ensures OfRecords(rs, OneDay(d)).count >= |OfDay(rs, d)|
  {
    if rs != [] {
      PositiveTotal(rs[..|rs| - 1], d);
    }
  }

  lemma DailyExactNow(rs: seq<Record>, d: Word)
    requires Positive(rs) && OfDay(rs, d) != [] && OfRecords(rs, OneDay(d)).count < TWO_TO_32
    ensures OfRecord(DailyOf(d, OfDay(rs, d))) == OfRecords(rs, OneDay(d))
  {
    hide OfDay;
    PositiveTotal(rs, d);
    DayTotals(rs, d);
    var agg := OfRecords(rs, OneDay(d));
    assert agg.sum / agg.count as real * agg.count as real == agg.sum;
  }

  // ---------------------------------------------------------------- when a daily record is written

  /** Closing an hour adds one hourly record, and a daily record exactly when the
      hour is the last of its day and is the day's 24th. */
  lemma EmitDaily(s: SeriesRollup, a: Acc)
    requires a.count > 0
    ensures var d, s' := DayStart(a.windowStart), Emit(s, a);
            && s'.hourly == s.hourly + [RecordOf(a)]
            && OfDay(s'.hourly, d) == OfDay(s.hourly, d) + [RecordOf(a)]
            && s'.daily == if a.windowStart == d + 23 * HOUR && |OfDay(s.hourly, d)| == 23
                           then s.daily + [DailyOf(d, OfDay(s'.hourly, d))] else s.daily
  {
    hide HourlyForDay, OfDay, RecordOf, DailyOf;
    var d, w := DayStart(a.windowStart), a.windowStart;
    RecordWindow(a);
    OfDayAppend(s.hourly, RecordOf(a), d);
    if w == (d + 23 * HOUR) % TWO_TO_64 {
      LastHourFits(w);
      DayStartIdempotent(w);
      HourlyIsOfDay(s.hourly + [RecordOf(a)], d);
    }
  }

  lemma RecordWindow(a: Acc)
    ensures RecordOf(a).windowStart == a.windowStart && RecordOf(a).count == a.count
  {
  }

  /** A step of any series and any kind closes at most the open hour. */
  predicate Closes(s: SeriesRollup, e: Event, x: Series) {
    s.acc.Some? && s.acc.value.count > 0 &&
    (e.Flush? || (e.x == x && s.acc.value.windowStart != BucketStart(e.p.ts)))
  }

  lemma StepFiles(s: SeriesRollup, e: Event, x: Series)
    ensures var s' := Step(s, e, x);
            if Closes(s, e, x) then s'.hourly == Emit(s, s.acc.value).hourly && s'.daily == Emit(s, s.acc.value).daily
            else s'.hourly == s.hourly && s'.daily == s.daily
  {
    hide FinalizeDay, RecordOf;
  }

  // ---------------------------------------------------------------- at most once

  /** Days with a daily record have at least 24 hourly records, and no day has
      two daily records. */
  ghost predicate DailyOk(s: SeriesRollup) {
    && Positive(s.hourly)
    && (forall i | 0 <= i < |s.daily| :: |OfDay(s.hourly, s.daily[i].windowStart)| >= 24)
    && (forall i, j | 0 <= i < j < |s.daily| :: s.daily[i].windowStart != s.daily[j].windowStart)
  }

  lemma OfDayGrows(rs: seq<Record>, r: Record, d: Word)
    ensures |OfDay(rs + [r], d)| >= |OfDay(rs, d)|
  {
    OfDayAppend(rs, r, d);
  }

  lemma EmitDailyOk(s: SeriesRollup, a: Acc)
    requires DailyOk(s) && a.count > 0
    ensures DailyOk(Emit(s, a))
  {
    hide OfDay, RecordOf, DailyOf, Emit;
    var s' := Emit(s, a);
    EmitDaily(s, a);
    RecordWindow(a);
    forall i | 0 <= i < |s.daily| ensures |OfDay(s'.hourly, s.daily[i].windowStart)| >= 24 {
      OfDayGrows(s.hourly, RecordOf(a), s.daily[i].windowStart);
    }
    DailyWindow(DayStart(a.windowStart), OfDay(s'.hourly, DayStart(a.windowStart)));
  }

  lemma DailyWindow(d: Word, recs: seq<Record>)
    ensures DailyOf(d, recs).windowStart == d
  {
  }

  /** Whatever the order of arrival and wherever flushes fall, a day gets at most
      one daily record. */
  lemma {:induction false} DailyOnce(evs: seq<Event>, x: Series)
    ensures DailyOk(Run(evs, x))
  {
    hide Step, Emit, Closes;
    if evs == [] {
      NothingRun(x);
    } else {
      var s, e := Run(evs[..|evs| - 1], x), evs[|evs| - 1];
      DailyOnce(evs[..|evs| - 1], x);
      StepFiles(s, e, x);
      if Closes(s, e, x) {
        ClosesOpen(s, e, x);
        EmitDailyOk(s, s.acc.value);
      }
    }
  }

  lemma ClosesOpen(s: SeriesRollup, e: Event, x: Series)
    ensures Closes(s, e, x) ==> s.acc.Some? && s.acc.value.count > 0
  {
  }

  // ---------------------------------------------------------------- exact when written

  /** No day has so many samples that the uint32 count wraps. */
  ghost predicate DayCountable(h: seq<Sample>) {
    forall d :: OfSamples(h, OneDay(d)).count < TWO_TO_32
  }

  lemma {:induction false} WindowInDay(h: seq<Sample>, w: Word)
    ensures OfSamples(h, OneWindow(w)).count <= OfSamples(h, OneDay(DayStart(w))).count
  {
    if h != [] {
      WindowInDay(h[..|h| - 1], w);
    }
  }

  lemma DayCountableWindows(h: seq<Sample>)
    requires DayCountable(h)
    ensures Countable(h)
  {
    hide OfSamples;
    forall w ensures OfSamples(h, OneWindow(w)).count < TWO_TO_32 {
      WindowInDay(h, w);
    }
  }

  lemma DayCountablePrefix(h: seq<Sample>, h': seq<Sample>)
    requires h' != [] && h == h'[..|h'| - 1] && DayCountable(h')
    ensures DayCountable(h)
  {
    hide OfSamples;
    forall d ensures OfSamples(h, OneDay(d)).count < TWO_TO_32 {
      FewerSamples(h', OneDay(d));
    }
  }

  /** The n-th event made r the record of its day, when the day had got exactly
      the samples r aggregates. */
  ghost predicate ExactAt(evs: seq<Event>, x: Series, r: Record, n: nat) {
    && n < |evs| && r.windowStart == DayStart(r.windowStart)
    && OfRecord(r) == OfSamples(History(evs[..n], x), OneDay(r.windowStart))
    && Closes(Run(evs[..n], x), evs[n], x)
    && Run(evs[..n], x).acc.value.windowStart == r.windowStart + 23 * HOUR
    && |OfDay(Run(evs[..n], x).hourly, r.windowStart)| == 23
  }

  ghost predicate ExactOnce(evs: seq<Event>, x: Series, r: Record) {
    exists n: nat :: ExactAt(evs, x, r, n)
  }

  lemma EmittedDailyExact(evs: seq<Event>, x: Series, a: Acc)
    requires DayCountable(History(evs, x)) && Run(evs, x).acc == Some(a) && a.count > 0
    ensures var s, d := Run(evs, x), DayStart(a.windowStart);
            OfRecord(DailyOf(d, OfDay(Emit(s, a).hourly, d))) == OfSamples(History(evs, x), OneDay(d))
  {
    var s, h, d := Run(evs, x), History(evs, x), DayStart(a.windowStart);
    DayCountableWindows(h);
    Conservation(evs, x, OneDay(d));
    EmitHeld(s, a, OneDay(d));
    DailyOnce(evs, x);
    EmitDaily(s, a);
    EmitDailyOk(s, a);
    assert OfSamples(h, OneDay(d)).count < TWO_TO_32;
    DailyExactNow(Emit(s, a).hourly, d);
  }

  /** Every daily record equals the exact count, mean, minimum and maximum of all
      samples of its day accumulated when it was written: when the day's last
      hour was closed as its 24th record. */
  lemma {:induction false} DailyExact(evs: seq<Event>, x: Series)
    requires DayCountable(History(evs, x))
    ensures forall i | 0 <= i < |Run(evs, x).daily| :: ExactOnce(evs, x, Run(evs, x).daily[i])
  {
    hide Run, History, Step, Emit, OfDay, OfSamples, Closes;
    if evs == [] {
      NothingRun(x);
    } else {
      var before, e := evs[..|evs| - 1], evs[|evs| - 1];
      var s, s' := Run(before, x), Run(evs, x);
      assert evs == before + [e];
      RunLast(before, e, x);
      HistoryLast(before, e, x);
      if History(evs, x) != History(before, x) { DayCountablePrefix(History(before, x), History(evs, x)); }
      DailyExact(before, x);
      StepFiles(s, e, x);
      if Closes(s, e, x) {
        ClosesOpen(s, e, x);
        EmitDaily(s, s.acc.value);
      }
      forall i | 0 <= i < |s'.daily| ensures ExactOnce(evs, x, s'.daily[i]) {
        assert i < |s.daily| ==> s'.daily[i] == s.daily[i] && ExactOnce(before, x, s.daily[i]);
        if i < |s.daily| {
          var n: nat :| ExactAt(before, x, s.daily[i], n);
          assert evs[..n] == before[..n] && evs[n] == before[n];
          assert ExactAt(evs, x, s.daily[i], n);
        } else {
          var a := s.acc.value;
          EmittedDailyExact(before, x, a);
          DailyWindow(DayStart(a.windowStart), OfDay(Emit(s, a).hourly, DayStart(a.windowStart)));
          DayStartIdempotent(a.windowStart);
          assert evs[..|before|] == before;
          assert ExactAt(evs, x, s'.daily[i], |before|);
        }
      }
    }
  }
}
