/** Samples that arrive in time order: exactly which days get a daily record, and
    that it covers the whole day. */
module RollupOrdered {
  import opened Words
  import opened Wrappers
  import opened Stores
  import opened Rollup
  import opened RollupTheorems
  import opened RollupDaily

  ghost predicate NoFlush(evs: seq<Event>) {
    forall e | e in evs :: !e.Flush?
  }

  ghost predicate InTimeOrder(h: seq<Sample>) {
    forall i, j | 0 <= i < j < |h| :: h[i].ts <= h[j].ts
  }

  ghost predicate HasRecord(rs: seq<Record>, w: Word) {
    exists i | 0 <= i < |rs| :: rs[i].windowStart == w
  }

  ghost predicate HasSample(h: seq<Sample>, w: Word) {
    exists i | 0 <= i < |h| :: BucketStart(h[i].ts) == w
  }

  /** A whole day, which has no uint64 wrap-around in it. */
  predicate WholeDay(d: Word) {
    d == DayStart(d) && d + DAY < TWO_TO_64
  }

  ghost predicate AllHours(rs: seq<Record>, d: Word)
    requires WholeDay(d)
  {
    forall k | 0 <= k < 24 :: HasRecord(rs, d + k * HOUR)
  }

  // ---------------------------------------------------------------- counting the hours of a day

  /** Hours of the day that have a record. */
  ghost function Hours(rs: seq<Record>, d: Word): set<int>
    requires WholeDay(d)
  {
    set k | 0 <= k < 24 && HasRecord(rs, d + k * HOUR)
  }

  ghost predicate Increasing(rs: seq<Record>) {
    && (forall i, j | 0 <= i < j < |rs| :: rs[i].windowStart < rs[j].windowStart)
    && (forall i | 0 <= i < |rs| :: rs[i].windowStart == BucketStart(rs[i].windowStart))
  }

  lemma HasAppend(rs: seq<Record>, r: Record, w: Word)
    ensures HasRecord(rs + [r], w) <==> HasRecord(rs, w) || r.windowStart == w
  {
    if HasRecord(rs, w) {
      var i :| 0 <= i < |rs| && rs[i].windowStart == w;
      assert (rs + [r])[i].windowStart == w;
    }
    assert (rs + [r])[|rs|] == r;
  }

  /** The hour of its day a window is. */
  lemma HourOf(w: Word) returns (k: int)
    requires w == BucketStart(w)
    ensures 0 <= k < 24 && w == DayStart(w) + k * HOUR
  {
    var hour, day := w / HOUR, w / DAY;
    k := hour - 24 * day;
    assert w == hour * HOUR && day * DAY <= w < day * DAY + DAY;
  }

  lemma HourInDay(d: Word, k: int)
    requires WholeDay(d) && 0 <= k < 24
    ensures DayStart(d + k * HOUR) == d
  {
  }

  lemma {:induction false} HoursCounted(rs: seq<Record>, d: Word)
    requires WholeDay(d) && Increasing(rs)
    ensures |Hours(rs, d)| == |OfDay(rs, d)|
  {
    hide DayStart, BucketStart, OfDay, WholeDay;
    if rs == [] {
      assert Hours(rs, d) == {};
      NoTotals(d);
    } else {
      var init, r := rs[..|rs| - 1], rs[|rs| - 1];
      assert rs == init + [r];
      HoursCounted(init, d);
      OfDayAppend(init, r, d);
      if DayStart(r.windowStart) == d {
        var k := HourOf(r.windowStart);
        NewHour(init, r, d, k);
      } else {
        OtherDay(init, r, d);
      }
    }
  }

  lemma NewHour(init: seq<Record>, r: Record, d: Word, k: int)
    requires WholeDay(d) && 0 <= k < 24 && r.windowStart == d + k * HOUR
    requires forall i | 0 <= i < |init| :: init[i].windowStart < r.windowStart
    ensures Hours(init + [r], d) == Hours(init, d) + {k} && k !in Hours(init, d)
  {
    hide HasRecord, DayStart;
    forall j | 0 <= j < 24 ensures HasRecord(init + [r], d + j * HOUR) <==> HasRecord(init, d + j * HOUR) || j == k {
      HasAppend(init, r, d + j * HOUR);
    }
    assert !HasRecord(init, r.windowStart) by { NotYet(init, r); }
  }

  lemma NotYet(init: seq<Record>, r: Record)
    requires forall i | 0 <= i < |init| :: init[i].windowStart < r.windowStart
    ensures !HasRecord(init, r.windowStart)
  {
  }

  lemma OtherDay(init: seq<Record>, r: Record, d: Word)
    requires WholeDay(d) && DayStart(r.windowStart) != d
    ensures Hours(init + [r], d) == Hours(init, d)
  {
    hide HasRecord, DayStart;
    forall j | 0 <= j < 24 ensures HasRecord(init + [r], d + j * HOUR) <==> HasRecord(init, d + j * HOUR) {
      HasAppend(init, r, d + j * HOUR);
      HourInDay(d, j);
    }
  }

  /** {0, ..., n - 1} */
  function UpTo(n: nat): (s: set<int>)
    ensures |s| == n && forall k :: k in s <==> 0 <= k < n
  {
    if n == 0 then {} else UpTo(n - 1) + {n - 1}
  }

  lemma SameSize(s: set<int>, all: set<int>)
    requires s <= all && |s| == |all|
    ensures s == all
  {
    assert |all - s| == |all| - |s|;
  }

  /** A day has 24 records exactly when it has one for each hour. */
  lemma DayFull(rs: seq<Record>, d: Word)
    requires WholeDay(d) && Increasing(rs)
    ensures |OfDay(rs, d)| == 24 <==> AllHours(rs, d)
  {
    hide OfDay, HasRecord, DayStart, Increasing, UpTo;
    HoursCounted(rs, d);
    var hours, all := Hours(rs, d), UpTo(24);
    if AllHours(rs, d) {
      assert hours == all;
    }
    if |OfDay(rs, d)| == 24 {
      SameSize(hours, all);
      forall k | 0 <= k < 24 ensures HasRecord(rs, d + k * HOUR) {
        assert k in all && k in hours;
      }
    }
  }

  // ---------------------------------------------------------------- runs in time order

  /** The hourly file lists the closed hours of the samples in order, and a day has
      a daily record exactly when all its hours are listed. */
  ghost predicate Ordered(s: SeriesRollup, h: seq<Sample>) {
    if h == [] then s == NOTHING
    else
      && s.acc.Some? && s.acc.value.count > 0 && s.acc.value.windowStart == BucketStart(h[|h| - 1].ts)
      && Increasing(s.hourly)
      && (forall w: Word :: HasRecord(s.hourly, w) <==> HasSample(h, w) && w < s.acc.value.windowStart)
      && (forall d: Word | WholeDay(d) :: HasRecord(s.daily, d) <==> AllHours(s.hourly, d))
  }

  lemma SampleAppend(h: seq<Sample>, p: Sample, w: Word)
    ensures HasSample(h + [p], w) <==> HasSample(h, w) || BucketStart(p.ts) == w
  {
    hide BucketStart;
    if HasSample(h, w) {
      var i :| 0 <= i < |h| && BucketStart(h[i].ts) == w;
      assert (h + [p])[i] == h[i];
    }
    assert (h + [p])[|h|] == p;
  }

  lemma BucketMonotone(a: Word, b: Word)
    requires a <= b
    ensures BucketStart(a) <= BucketStart(b) && BucketStart(BucketStart(a)) == BucketStart(a)
  {
  }

  lemma LastWindow(h: seq<Sample>, w: Word)
    requires h != [] && InTimeOrder(h) && HasSample(h, w)
    ensures w <= BucketStart(h[|h| - 1].ts)
  {
    hide BucketStart;
    var i :| 0 <= i < |h| && BucketStart(h[i].ts) == w;
    assert h[i].ts <= h[|h| - 1].ts;
    BucketMonotone(h[i].ts, h[|h| - 1].ts);
  }

  /** The first sample, and a sample in the open hour, close nothing. */
  lemma OrderedStay(s: SeriesRollup, h: seq<Sample>, p: Sample)
    requires Ordered(s, h) && InTimeOrder(h + [p])
    requires h == [] || s.acc.value.windowStart == BucketStart(p.ts)
    requires s.acc.Some? ==> s.acc.value.count + 1 < TWO_TO_32
    ensures Ordered(WriteStep(s, p), h + [p])
  {
    hide HasRecord, HasSample, BucketStart, AllHours, WholeDay;
    forall w: Word ensures HasSample(h + [p], w) <==> HasSample(h, w) || BucketStart(p.ts) == w {
      SampleAppend(h, p, w);
    }
    if h == [] {
      NothingOrdered(p);
    }
  }

  lemma NothingOrdered(p: Sample)
    ensures (forall w: Word :: !HasRecord([], w)) && (forall w: Word :: !HasSample([], w))
    ensures forall d: Word | WholeDay(d) :: !AllHours([], d)
  {
    forall d: Word | WholeDay(d) ensures !AllHours([], d) {
      assert !HasRecord([], d + 0 * HOUR);
    }
  }

  /** The hourly file after the open hour was closed. */
  lemma ClosedIncreasing(s: SeriesRollup, h: seq<Sample>)
    requires h != [] && Ordered(s, h) && InTimeOrder(h)
    ensures var a := s.acc.value;
            Increasing(s.hourly + [RecordOf(a)])
            && forall w: Word :: HasRecord(s.hourly + [RecordOf(a)], w) <==> HasSample(h, w)
  {
    hide BucketStart, AllHours, WholeDay, HasSample, HasRecord;
    var a := s.acc.value;
    var r := RecordOf(a);
    RecordWindow(a);
    forall i | 0 <= i < |s.hourly| ensures s.hourly[i].windowStart < a.windowStart {
      assert HasRecord(s.hourly, s.hourly[i].windowStart) by { HasThis(s.hourly, i); }
    }
    BucketMonotone(h[|h| - 1].ts, h[|h| - 1].ts);
    forall w: Word ensures HasRecord(s.hourly + [r], w) <==> HasSample(h, w) {
      HasAppend(s.hourly, r, w);
      if HasSample(h, w) { LastWindow(h, w); }
      assert HasSample(h, a.windowStart) by { HasThisSample(h, |h| - 1); }
    }
  }

  lemma HasThis(rs: seq<Record>, i: nat)
    requires i < |rs|
    ensures HasRecord(rs, rs[i].windowStart)
  {
  }

  lemma HasThisSample(h: seq<Sample>, i: nat)
    requires i < |h|
    ensures HasSample(h, BucketStart(h[i].ts))
  {
  }

  /** Closing an hour completes at most the day it ends. */
  lemma ClosedDays(s: SeriesRollup, h: seq<Sample>, d: Word)
    requires h != [] && Ordered(s, h) && InTimeOrder(h) && WholeDay(d)
    ensures HasRecord(Emit(s, s.acc.value).daily, d) <==> AllHours(Emit(s, s.acc.value).hourly, d)
  {
    hide BucketStart, HasSample, HasRecord, Emit, OfDay, DailyOf;
    var a := s.acc.value;
    var s', w := Emit(s, a), a.windowStart;
    EmitDaily(s, a); RecordWindow(a); ClosedIncreasing(s, h);
    assert AllHours(s.hourly, d) <==> HasRecord(s.daily, d);
    forall k | 0 <= k < 24
      ensures HasRecord(s'.hourly, d + k * HOUR) <==> HasRecord(s.hourly, d + k * HOUR) || w == d + k * HOUR
    {
      HasAppend(s.hourly, RecordOf(a), d + k * HOUR);
    }
    if w == d + 23 * HOUR {
      HourInDay(d, 23);
      DayFull(s'.hourly, d);
      assert !HasRecord(s.hourly, d + 23 * HOUR);
      if |OfDay(s.hourly, d)| == 23 {
        DailyWindow(d, OfDay(s'.hourly, d));
        HasAppend(s.daily, DailyOf(d, OfDay(s'.hourly, d)), d);
      }
    } else {
      if AllHours(s'.hourly, d) {
        assert HasRecord(s'.hourly, d + 23 * HOUR) && HasRecord(s.hourly, d + 23 * HOUR);
        EarlierHours(s, h, d);
      }
      if s'.daily != s.daily {
        DayStartIdempotent(w);
        DailyWindow(DayStart(w), OfDay(s'.hourly, DayStart(w)));
        HasAppend(s.daily, DailyOf(DayStart(w), OfDay(s'.hourly, DayStart(w))), d);
      }
    }
  }

  /** With the last hour of a day already closed, the open hour is past the day. */
  lemma EarlierHours(s: SeriesRollup, h: seq<Sample>, d: Word)
    requires h != [] && Ordered(s, h) && WholeDay(d) && HasRecord(s.hourly, d + 23 * HOUR)
    ensures forall k | 0 <= k < 24 :: s.acc.value.windowStart != d + k * HOUR
  {
    assert d + 23 * HOUR < s.acc.value.windowStart;
  }

  /** A sample in a later hour closes the open one. */
  lemma OrderedClose(s: SeriesRollup, h: seq<Sample>, p: Sample)
    requires h != [] && Ordered(s, h) && InTimeOrder(h + [p]) && s.acc.value.windowStart != BucketStart(p.ts)
    ensures Ordered(WriteStep(s, p), h + [p])
  {
    hide BucketStart, HasSample, WholeDay;
    var a, s' := s.acc.value, WriteStep(s, p);
    assert h == (h + [p])[..|h|];
    OrderPrefix(h + [p]);
    assert (h + [p])[|h| - 1].ts <= (h + [p])[|h|].ts;
    BucketMonotone(h[|h| - 1].ts, p.ts);
    ClosedIncreasing(s, h);
    EmitHourly(s, a);
    forall w: Word ensures HasSample(h, w) <==> HasSample(h + [p], w) && w < BucketStart(p.ts) {
      SampleAppend(h, p, w);
      if HasSample(h, w) { LastWindow(h, w); }
    }
    forall d: Word | WholeDay(d) ensures HasRecord(s'.daily, d) <==> AllHours(s'.hourly, d) {
      ClosedDays(s, h, d);
    }
  }

  lemma EmitHourly(s: SeriesRollup, a: Acc)
    requires a.count > 0
    ensures Emit(s, a).hourly == s.hourly + [RecordOf(a)]
  {
  }

  lemma OrderPrefix(h: seq<Sample>)
    requires h != [] && InTimeOrder(h)
    ensures InTimeOrder(h[..|h| - 1])
  {
  }

  lemma {:induction false} OrderedRun(evs: seq<Event>, x: Series)
    requires NoFlush(evs) && InTimeOrder(History(evs, x)) && Countable(History(evs, x))
    ensures Ordered(Run(evs, x), History(evs, x))
  {
    hide Ordered;
    if evs == [] {
      assert Ordered(NOTHING, []) by { NothingYet(); }
    } else {
      var before, e := evs[..|evs| - 1], evs[|evs| - 1];
      assert e in evs && forall f | f in before :: f in evs;
      var h := History(evs, x);
      if e.Write? && e.x == x {
        assert h[..|h| - 1] == History(before, x);
        OrderPrefix(h); CountablePrefix(h);
        OrderedRun(before, x);
        OpenRoom(before, x, e.p);
        OrderedWrite(Run(before, x), History(before, x), e.p);
      } else {
        assert h == History(before, x);
        OrderedRun(before, x);
      }
    }
  }

  lemma NothingYet()
    ensures Ordered(NOTHING, [])
  {
  }

  lemma OrderedWrite(s: SeriesRollup, h: seq<Sample>, p: Sample)
    requires Ordered(s, h) && InTimeOrder(h + [p])
    requires s.acc.Some? && s.acc.value.windowStart == BucketStart(p.ts) ==> s.acc.value.count + 1 < TWO_TO_32
    ensures Ordered(WriteStep(s, p), h + [p])
  {
    if h == [] || s.acc.value.windowStart == BucketStart(p.ts) {
      OrderedStay(s, h, p);
    } else {
      OrderedClose(s, h, p);
    }
  }

  /** The open hour has room for one more sample. */
  lemma OpenRoom(evs: seq<Event>, x: Series, p: Sample)
    requires Countable(History(evs, x) + [p])
    ensures var s := Run(evs, x);
            s.acc.Some? && s.acc.value.windowStart == BucketStart(p.ts) ==> s.acc.value.count + 1 < TWO_TO_32
  {
    hide OfSamples, Countable, Held, BucketStart, Plus;
    var h, w := History(evs, x), BucketStart(p.ts);
    assert (h + [p])[..|h|] == h;
    CountablePrefix(h + [p]);
    Conservation(evs, x, OneWindow(w));
    OpenCount(Run(evs, x), w);
    CountableAt(h + [p], w);
    LastSample(h + [p], OneWindow(w));
    PlusCount(OfSamples(h, OneWindow(w)), p.value);
  }

  // ---------------------------------------------------------------- the days covered

  /** Each hour of the day has a sample. */
  ghost predicate EveryHour(h: seq<Sample>, d: Word)
    requires WholeDay(d)
  {
    forall k | 0 <= k < 24 :: HasSample(h, d + k * HOUR)
  }

  /** There is a sample after the day. */
  ghost predicate Over(h: seq<Sample>, d: Word) {
    exists i | 0 <= i < |h| :: h[i].ts >= d + DAY
  }

  /** Without flushes and in time order, a day has its daily record exactly when
      each of its 24 hours has a sample and a later day has begun. */
  lemma DailyInOrder(evs: seq<Event>, x: Series, d: Word)
    requires NoFlush(evs) && InTimeOrder(History(evs, x)) && Countable(History(evs, x)) && WholeDay(d)
    ensures HasRecord(Run(evs, x).daily, d) <==> EveryHour(History(evs, x), d) && Over(History(evs, x), d)
  {
    hide Run, History, Countable, HasRecord, HasSample, Increasing;
    var s, h := Run(evs, x), History(evs, x);
    OrderedRun(evs, x);
    if h == [] {
      assert !HasRecord([], d) by { NothingOrdered(Sample(0, 0.0)); }
    } else {
      PastDay(d, h[|h| - 1].ts);
      if HasRecord(s.daily, d) {
        assert HasRecord(s.hourly, d + 23 * HOUR);
        forall k | 0 <= k < 24 ensures HasSample(h, d + k * HOUR) { assert HasRecord(s.hourly, d + k * HOUR); }
      }
      if EveryHour(h, d) && Over(h, d) {
        forall k | 0 <= k < 24 ensures HasRecord(s.hourly, d + k * HOUR) { assert HasSample(h, d + k * HOUR); }
      }
    }
  }

  lemma PastDay(d: Word, ts: Word)
    requires WholeDay(d)
    ensures BucketStart(ts) > d + 23 * HOUR <==> ts >= d + DAY
  {
    LaterHour(d / DAY, ts / HOUR, ts);
  }

  lemma LaterHour(day: int, hour: int, ts: int)
    requires hour * HOUR <= ts < hour * HOUR + HOUR
    ensures hour * HOUR > day * DAY + 23 * HOUR <==> ts >= day * DAY + DAY
  {
  }

  // ---------------------------------------------------------------- the whole day

  lemma {:induction false} HistoryExtends(evs: seq<Event>, n: nat, x: Series)
    requires n <= |evs|
    ensures History(evs[..n], x) <= History(evs, x)
    decreases |evs|
  {
    if n < |evs| {
      assert evs[..|evs| - 1][..n] == evs[..n];
      HistoryExtends(evs[..|evs| - 1], n, x);
    } else {
      assert evs[..n] == evs;
    }
  }

  /** Samples after a day do not count towards it. */
  lemma {:induction false} LaterSamples(h: seq<Sample>, n: nat, d: Word)
    requires n <= |h| && WholeDay(d) && forall i | n <= i < |h| :: h[i].ts >= d + DAY
    ensures OfSamples(h, OneDay(d)) == OfSamples(h[..n], OneDay(d))
    decreases |h|
  {
    hide Plus, OfSample, OfSamples;
    if n == |h| {
      assert h[..n] == h;
    } else {
      var init, last := h[..|h| - 1], h[|h| - 1];
      assert init[..n] == h[..n];
      LaterSamples(init, n, d);
      LastSample(h, OneDay(d));
      AnotherDay(d, last.ts);
    }
  }

  lemma AnotherDay(d: Word, ts: Word)
    requires WholeDay(d) && ts >= d + DAY
    ensures DayStart(BucketStart(ts)) != d
  {
    DayStartIdempotent(ts);
  }

  /** In time order and without flushes, a daily record aggregates every sample
      its day ever gets. */
  lemma DailyWholeDay(evs: seq<Event>, x: Series, i: nat)
    requires NoFlush(evs) && InTimeOrder(History(evs, x)) && DayCountable(History(evs, x))
    requires i < |Run(evs, x).daily|
    ensures var r := Run(evs, x).daily[i]; OfRecord(r) == OfSamples(History(evs, x), OneDay(r.windowStart))
  {
    hide Run, History, OfSamples;
    var r, h := Run(evs, x).daily[i], History(evs, x);
    DailyExact(evs, x);
    assert ExactOnce(evs, x, r);
    var n: nat :| ExactAt(evs, x, r, n);
    var earlier := History(evs[..n], x);
    assert evs[n] in evs && evs[..n + 1][..n] == evs[..n] && evs[..n + 1] == evs[..n] + [evs[n]];
    HistoryLast(evs[..n], evs[n], x);
    HistoryExtends(evs, n + 1, x);
    DayCountableWindows(h);
    ClosedDayIsOver(evs, x, r, n);
    forall k | |earlier| <= k < |h| ensures h[k].ts >= r.windowStart + DAY {
      assert h[|earlier|].ts <= h[k].ts;
    }
    assert h[..|earlier|] == earlier;
    LaterSamples(h, |earlier|, r.windowStart);
  }

  /** The sample that closes the last hour of a day lies after the day. */
  lemma ClosedDayIsOver(evs: seq<Event>, x: Series, r: Record, n: nat)
    requires NoFlush(evs) && InTimeOrder(History(evs, x)) && Countable(History(evs, x)) && ExactAt(evs, x, r, n)
    ensures evs[n].Write? && evs[n].x == x && evs[n].p.ts >= r.windowStart + DAY && WholeDay(r.windowStart)
  {
    hide Run, History, OfSamples, OfDay;
    var before, e := evs[..n], evs[n];
    assert e in evs && forall f | f in before :: f in evs;
    HistoryExtends(evs, n, x); HistoryExtends(evs, n + 1, x);
    assert evs[..n + 1] == before + [e];
    HistoryLast(before, e, x);
    PrefixFine(History(evs, x), History(before, x));
    PrefixFine(History(evs, x), History(before + [e], x));
    OrderedRun(before, x);
    ClosesWrite(Run(before, x), e, x);
    ClosingSample(Run(before, x), History(before, x), e.p, r.windowStart);
  }

  lemma ClosesWrite(s: SeriesRollup, e: Event, x: Series)
    requires Closes(s, e, x) && !e.Flush?
    ensures e.Write? && e.x == x && s.acc.Some? && s.acc.value.windowStart != BucketStart(e.p.ts)
  {
  }

  lemma ClosingSample(s: SeriesRollup, h: seq<Sample>, p: Sample, d: Word)
    requires Ordered(s, h) && InTimeOrder(h + [p]) && d == DayStart(d)
    requires s.acc.Some? && s.acc.value.windowStart != BucketStart(p.ts) && s.acc.value.windowStart == d + 23 * HOUR
    ensures p.ts >= d + DAY && WholeDay(d)
  {
    assert (h + [p])[|h| - 1].ts <= (h + [p])[|h|].ts;
    BucketMonotone(h[|h| - 1].ts, p.ts);
    WholeLastHour(d, s.acc.value.windowStart);
    PastDay(d, p.ts);
  }

  lemma WholeLastHour(d: Word, w: Word)
    requires d == DayStart(d) && w == d + 23 * HOUR
    ensures WholeDay(d)
  {
    assert DayStart(w) == d;
    LastHourFits(w);
  }

  lemma {:induction false} PrefixFine(h: seq<Sample>, now: seq<Sample>)
    requires now <= h && InTimeOrder(h) && Countable(h)
    ensures InTimeOrder(now) && Countable(now)
    decreases |h|
  {
    hide OfSamples, Countable;
    if now != h {
      CountablePrefix(h);
      OrderPrefix(h);
      PrefixFine(h[..|h| - 1], now);
    }
  }
}
