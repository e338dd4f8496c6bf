/** Hourly accumulators, the hourly and daily rollup files, and the tier-choosing
    query, with sample values as reals. The functions say what one operation
    does to one series; the methods of Engine do it for all series. */
module Rollup {
  import opened Words
  import opened Wrappers
  import opened Floats
  import opened IndexFile
  import opened RawQuery
  import opened Stores

  const HOUR: int := 3_600
  const DAY: int := 86_400
  const HOURLY_THRESHOLD_SECS: int := 10_800
  const DAILY_THRESHOLD_SECS: int := 172_800

  datatype Sample = Sample(ts: Word, value: real)

  /** A minimum or maximum, which starts out infinite. */
  datatype Bound = NegInf | Fin(r: real) | PosInf

  predicate Below(a: Bound, b: Bound) {
    match (a, b)
    case (Fin(x), Fin(y)) => x < y
    case (NegInf, _) => b != NegInf
    case (Fin(_), _) => b == PosInf
    case (PosInf, _) => false
  }

  function Lesser(a: Bound, b: Bound): Bound {
    if Below(b, a) then b else a
  }

  function Greater(a: Bound, b: Bound): Bound {
    if Below(a, b) then b else a
  }

  /** One aggregate of an hour or a day. */
  datatype Record = Record(windowStart: Word, avg: real, min: Bound, max: Bound, count: Word32)

  /** The open hour of a series. */
  datatype Acc = Acc(windowStart: Word, sum: real, min: Bound, max: Bound, count: Word32)

  /** Open accumulator, hourly_rollup.dat and daily_rollup.dat of one series. */
  datatype SeriesRollup = SeriesRollup(acc: Option<Acc>, hourly: seq<Record>, daily: seq<Record>)

  const NOTHING := SeriesRollup(None, [], [])

  function BucketStart(ts: Word): Word {
    ts / HOUR * HOUR
  }

  function DayStart(ts: Word): Word {
    ts / DAY * DAY
  }

  /** The hour and the day of a time, in seconds. */
  lemma WindowsContain(ts: Word)
    ensures BucketStart(ts) % 3_600 == 0 && BucketStart(ts) <= ts < BucketStart(ts) + 3_600
    ensures DayStart(ts) % 86_400 == 0 && DayStart(ts) <= ts < DayStart(ts) + 86_400
  {
    var h, d := ts / 3_600, ts / 86_400;
    assert ts == 3_600 * h + ts % 3_600 && ts == 86_400 * d + ts % 86_400;
    assert BucketStart(ts) == 3_600 * h && DayStart(ts) == 86_400 * d;
    WholeMultiple(h, 3_600); WholeMultiple(d, 86_400);
  }

  lemma WholeMultiple(q: nat, m: nat)
    requires m > 0
    ensures m * q % m == 0
  {
    MultipleRemainder(q, m);
    assert q * m == m * q;
  }

  function NewAcc(windowStart: Word): Acc {
    Acc(windowStart, 0.0, PosInf, NegInf, 0)
  }

  /** The count is a uint32 and wraps. */
  function AddSample(acc: Acc, value: real): Acc {
    Acc(acc.windowStart, acc.sum + value, Lesser(acc.min, Fin(value)), Greater(acc.max, Fin(value)),
        (acc.count + 1) % TWO_TO_32)
  }

  /** Division by a zero count, an infinity or NaN in floating point, reads 0. */
  function Quotient(sum: real, count: Word32): real {
    if count == 0 then 0.0 else sum / count as real
  }

  function RecordOf(acc: Acc): Record {
    Record(acc.windowStart, Quotient(acc.sum, acc.count), acc.min, acc.max, acc.count)
  }

  // ---------------------------------------------------------------- rollup files

  /** The window and the range meet, in uint64 arithmetic. */
  predicate Selected(windowStart: Word, start: Word, end: Word) {
    (windowStart + HOUR) % TWO_TO_64 > start && windowStart <= end
  }

  function ReadRollup(recs: seq<Record>, start: Word, end: Word): seq<Record> {
    if recs == [] then []
    else
      var last := recs[|recs| - 1];
      ReadRollup(recs[..|recs| - 1], start, end) + if Selected(last.windowStart, start, end) then [last] else []
  }

  predicate InDay(windowStart: Word, dayStart: Word) {
    windowStart >= dayStart && windowStart < (dayStart + DAY) % TWO_TO_64
  }

  function OnlyInDay(recs: seq<Record>, dayStart: Word): seq<Record> {
    if recs == [] then []
    else
      var last := recs[|recs| - 1];
      OnlyInDay(recs[..|recs| - 1], dayStart) + if InDay(last.windowStart, dayStart) then [last] else []
  }

  function HourlyForDay(hourly: seq<Record>, dayStart: Word): seq<Record> {
    OnlyInDay(ReadRollup(hourly, dayStart, (dayStart + 86399) % TWO_TO_64), dayStart)
  }

  function TotalCount(recs: seq<Record>): Word32 {
    if recs == [] then 0 else (TotalCount(recs[..|recs| - 1]) + recs[|recs| - 1].count) % TWO_TO_32
  }

  function WeightedSum(recs: seq<Record>): real {
    if recs == [] then 0.0
    else
      var last := recs[|recs| - 1];
      WeightedSum(recs[..|recs| - 1]) + last.avg * last.count as real
  }

  function LeastMin(recs: seq<Record>): Bound {
    if recs == [] then PosInf else Lesser(LeastMin(recs[..|recs| - 1]), recs[|recs| - 1].min)
  }

  function GreatestMax(recs: seq<Record>): Bound {
    if recs == [] then NegInf else Greater(GreatestMax(recs[..|recs| - 1]), recs[|recs| - 1].max)
  }

  function DailyOf(dayStart: Word, recs: seq<Record>): Record {
    Record(dayStart, Quotient(WeightedSum(recs), TotalCount(recs)), LeastMin(recs), GreatestMax(recs), TotalCount(recs))
  }

  /** The daily file after an hour of the day was closed. */
  function FinalizeDay(hourly: seq<Record>, daily: seq<Record>, hourStart: Word): seq<Record> {
    var dayStart := DayStart(hourStart);
    var recs := HourlyForDay(hourly, dayStart);
    if hourStart == (dayStart + 23 * HOUR) % TWO_TO_64 && |recs| == 24 then daily + [DailyOf(dayStart, recs)] else daily
  }

  // ---------------------------------------------------------------- one series

  /** Writes out a nonempty accumulator. */
  function Emit(s: SeriesRollup, acc: Acc): SeriesRollup {
    if acc.count == 0 then s
    else
      var hourly := s.hourly + [RecordOf(acc)];
      s.(hourly := hourly, daily := FinalizeDay(hourly, s.daily, acc.windowStart))
  }

  function WriteStep(s: SeriesRollup, p: Sample): SeriesRollup {
    var bucket := BucketStart(p.ts);
    match s.acc
    case None => s.(acc := Some(AddSample(NewAcc(bucket), p.value)))
    case Some(acc) =>
      if acc.windowStart == bucket then s.(acc := Some(AddSample(acc, p.value)))
      else Emit(s, acc).(acc := Some(AddSample(NewAcc(bucket), p.value)))
  }

  function FlushStep(s: SeriesRollup): SeriesRollup {
    match s.acc
    case None => s
    case Some(acc) => if acc.count == 0 then s else Emit(s, acc).(acc := Some(NewAcc(acc.windowStart)))
  }

  datatype Event = Write(x: Series, p: Sample) | Flush

  function Step(s: SeriesRollup, e: Event, x: Series): SeriesRollup {
    match e
    case Write(y, p) => if y == x then WriteStep(s, p) else s
    case Flush => FlushStep(s)
  }

  /** The rollups of series x after the events of all series. */
  function Run(evs: seq<Event>, x: Series): SeriesRollup {
    if evs == [] then NOTHING else Step(Run(evs[..|evs| - 1], x), evs[|evs| - 1], x)
  }

  /** The samples of series x, in order. */
  function History(evs: seq<Event>, x: Series): seq<Sample> {
    if evs == [] then []
    else
      var last := evs[|evs| - 1];
      History(evs[..|evs| - 1], x) + if last.Write? && last.x == x then [last.p] else []
  }

  // ---------------------------------------------------------------- queries

  datatype QueryResult =
    | RawResult(points: seq<Point>)
    | HourlyResult(recs: seq<Record>)
    | DailyResult(recs: seq<Record>)

  /** int64(end) - int64(start) */
  function Width(start: Word, end: Word): Int64 {
    Sub64(ToSigned(end), ToSigned(start))
  }

  function Answer(s: SeriesRollup, v: StoreView, start: Word, end: Word): QueryResult {
    var width := Width(start, end);
    var daily := ReadRollup(s.daily, start, end);
    var hourly := ReadRollup(s.hourly, start, end);
    if width >= DAILY_THRESHOLD_SECS && daily != [] then DailyResult(daily)
    else if width >= HOURLY_THRESHOLD_SECS && hourly != [] then HourlyResult(hourly)
    else RawResult(Raw(v.dir, v.index, v.buffer, start, end))
  }

  // ---------------------------------------------------------------- the engine

  /** The sample a stored point stands for. */
  function SampleOf(p: Point): Sample {
    Sample(p.ts, FloatValue(p.bits))
  }

  function Samples(ps: seq<Point>): (h: seq<Sample>)
    ensures |h| == |ps| && forall i | 0 <= i < |ps| :: h[i] == SampleOf(ps[i])
  {
    seq(|ps|, i requires 0 <= i < |ps| => SampleOf(ps[i]))
  }

  class Engine {
    const store: Store
    var accumulators: map<Series, Acc>
    var hourly: map<Series, seq<Record>>     // hourly_rollup.dat by series
    var daily: map<Series, seq<Record>>      // daily_rollup.dat by series

    ghost var events: seq<Event>
    ghost const earlier: map<Series, seq<Point>>  // acknowledged before this engine's lifetime

    ghost function View(x: Series): SeriesRollup
      reads this
    {
      SeriesRollup(
        if x in accumulators then Some(accumulators[x]) else None,
        if x in hourly then hourly[x] else [],
        if x in daily then daily[x] else [])
    }

    ghost function Earlier(x: Series): seq<Point> {
      if x in earlier then earlier[x] else []
    }

    /** Every series is where the events of this engine's lifetime lead. */
    ghost predicate InStep()
      reads this
    {
      forall x :: View(x) == Run(events, x)
    }

    /** The samples of every series are exactly the points its store acknowledged
        in this engine's lifetime. */
    ghost predicate SamplesAcked()
      reads this, store, store.series.Values
    {
      forall x :: Earlier(x) <= store.Acked(x) && History(events, x) == Samples(store.Acked(x)[|Earlier(x)|..])
    }

    ghost predicate Valid()
      reads this, store, store.series.Values, set x | x in store.series :: store.series[x].disk
    {
      store.Valid() && InStep() && SamplesAcked()
    }

    /** An engine over an opened store. */
    constructor (store: Store)
      requires store.Valid()
      ensures Valid() && this.store == store && events == []
      ensures forall x :: Earlier(x) == store.Acked(x)
    {
      hide Store.Valid;
      this.store, accumulators, hourly, daily, events := store, map[], map[], map[], [];
      earlier := map x | x in store.series :: store.Acked(x);
    }

    /** Writes to the store, and accumulates what the store acknowledged. A write the
        store logged and then failed is in the buffer but is no sample. */
    method WritePoint(series: Series, ts: Word, bits: Word) returns (ok: bool)
      requires Valid()
      modifies this, store, if series in store.series then {store.series[series], store.series[series].disk} else {}
      ensures Valid()
      ensures store.Acked(series) == old(store.Acked(series)) + if ok then [Point(ts, bits)] else []
      ensures store.Failures(series) == old(store.Failures(series)) + if ok then 0 else 1
      ensures events == old(events) + if ok then [Write(series, Sample(ts, FloatValue(bits)))] else []
      ensures || store.StateOf(series).logged == old(store.StateOf(series)).logged + [Point(ts, bits)]
              || (!ok && store.StateOf(series).logged == old(store.StateOf(series)).logged)
      ensures !ok ==> && store.Shown(series).index == old(store.Shown(series)).index
                      && store.Shown(series).buffer == old(store.Shown(series)).buffer
                           + store.StateOf(series).logged[|old(store.StateOf(series)).logged|..]
    {
      hide Run, FloatValue, History, Store.Valid, Samples;
      ghost var before, acked := events, store.Acked(series);
      ok := store.WritePoint(series, ts, bits);
      if !ok {
        return;
      }
      Accumulate(series, ts, FloatValue(bits));
      forall x ensures Earlier(x) <= store.Acked(x) && History(events, x) == Samples(store.Acked(x)[|Earlier(x)|..]) {
        HistoryLast(before, Write(series, Sample(ts, FloatValue(bits))), x);
        SamplesLast(acked, |Earlier(series)|, Point(ts, bits));
      }
    }

    /** The accumulator part of a write. */
    method Accumulate(series: Series, ts: Word, value: real)
      requires InStep()
      modifies this`accumulators, this`hourly, this`daily, this`events
      ensures InStep() && events == old(events) + [Write(series, Sample(ts, value))]
    {
      hide Run, WriteStep;
      ghost var before := events;
      UpdateAccumulator(series, ts, value);
      var e := Write(series, Sample(ts, value));
      events := events + [e];
      forall x ensures View(x) == Run(events, x) {
        RunLast(before, e, x);
      }
    }

    method UpdateAccumulator(series: Series, ts: Word, value: real)
      modifies this`accumulators, this`hourly, this`daily
      ensures View(series) == WriteStep(old(View(series)), Sample(ts, value))
      ensures forall y | y != series :: View(y) == old(View(y))
    {
      hide FinalizeDay, RecordOf;
      var bucketStart := ts / HOUR * HOUR;
      if series !in accumulators {
        accumulators := accumulators[series := NewAcc(bucketStart)];
      }
      var acc := accumulators[series];
      if acc.windowStart != bucketStart {
        if acc.count > 0 {
          AppendHourlyRecord(series, RecordOf(acc));
          MaybeFinalizeDailyRecord(series, acc.windowStart);
        }
        acc := NewAcc(bucketStart);
      }
      var min := if Below(Fin(value), acc.min) then Fin(value) else acc.min;
      var max := if Below(acc.max, Fin(value)) then Fin(value) else acc.max;
      acc := Acc(acc.windowStart, acc.sum + value, min, max, (acc.count + 1) % TWO_TO_32);
      accumulators := accumulators[series := acc];
    }

    /** Closes the open hours of all series, in any order. The store is not involved. */
    method FlushAll()
      requires Valid()
      modifies this`accumulators, this`hourly, this`daily, this`events
      ensures Valid() && events == old(events) + [Flush]
    {
      hide Run, History, Samples, Store.Valid;
      ghost var before := events;
      FlushHours();
      forall x ensures History(events, x) == History(before, x) {
        HistoryLast(before, Flush, x);
      }
    }

    method FlushHours()
      requires InStep()
      modifies this`accumulators, this`hourly, this`daily, this`events
      ensures InStep() && events == old(events) + [Flush]
    {
      hide FinalizeDay, RecordOf, Run;
      ghost var before := events;
      var todo := accumulators.Keys;
      while todo != {}
        invariant events == before && todo <= accumulators.Keys == old(accumulators).Keys
        invariant forall x :: View(x) == if x in todo then Run(before, x) else FlushStep(Run(before, x))
        decreases |todo|
      {
        var series :| series in todo;
        todo := todo - {series};
        FlushOne(series);
      }
      events := events + [Flush];
      forall x ensures View(x) == Run(events, x) {
        RunLast(before, Flush, x);
      }
    }

    method FlushOne(series: Series)
      requires series in accumulators
      modifies this`accumulators, this`hourly, this`daily
      ensures accumulators.Keys == old(accumulators).Keys
      ensures View(series) == FlushStep(old(View(series)))
      ensures forall y | y != series :: View(y) == old(View(y))
    {
      hide FinalizeDay, RecordOf;
      var acc := accumulators[series];
      if acc.count > 0 {
        AppendHourlyRecord(series, RecordOf(acc));
        MaybeFinalizeDailyRecord(series, acc.windowStart);
        accumulators := accumulators[series := NewAcc(acc.windowStart)];
      }
    }

    method AppendHourlyRecord(series: Series, rec: Record)
      modifies this`hourly
      ensures View(series) == old(View(series)).(hourly := old(View(series)).hourly + [rec])
      ensures forall y | y != series :: View(y) == old(View(y))
    {
      hourly := hourly[series := (if series in hourly then hourly[series] else []) + [rec]];
    }

    /** Writes the day's record when its last hour was closed as the 24th. */
    method MaybeFinalizeDailyRecord(series: Series, hourWindowStart: Word)
      modifies this`daily
      ensures View(series) == old(View(series)).(
                daily := FinalizeDay(old(View(series)).hourly, old(View(series)).daily, hourWindowStart))
      ensures forall y | y != series :: View(y) == old(View(y))
    {
      hide DailyOf, HourlyForDay;
      var dayStart := hourWindowStart / DAY * DAY;
      if hourWindowStart != (dayStart + 23 * HOUR) % TWO_TO_64 {
        return;
      }
      var recs := ReadHourlyRecordsForDay(series, dayStart);
      if |recs| != 24 {
        return;
      }
      var rec := Summarize(dayStart, recs);
      daily := daily[series := (if series in daily then daily[series] else []) + [rec]];
    }

    method ReadHourlyRecordsForDay(series: Series, dayStart: Word) returns (recs: seq<Record>)
      ensures recs == HourlyForDay(View(series).hourly, dayStart)
    {
      var file := if series in hourly then hourly[series] else [];
      var all := ReadRollupFile(file, dayStart, (dayStart + 86399) % TWO_TO_64);
      recs := [];
      for i := 0 to |all|
        invariant recs == OnlyInDay(all[..i], dayStart)
      {
        assert all[..i + 1][..i] == all[..i];
        if all[i].windowStart >= dayStart && all[i].windowStart < (dayStart + DAY) % TWO_TO_64 {
          recs := recs + [all[i]];
        }
      }
      assert all[..|all|] == all;
    }

    /** Picks the tier by the width of the range; a tier without matching records
        falls through to the next. */
    method Query(series: Series, start: Word, end: Word) returns (result: QueryResult)
      ensures result == Answer(View(series), store.Shown(series), start, end)
    {
      hide Raw, ReadRollup;
      var rangeWidth := Sub64(ToSigned(end), ToSigned(start));
      if rangeWidth >= DAILY_THRESHOLD_SECS {
        var recs := ReadRollupFile(if series in daily then daily[series] else [], start, end);
        if |recs| > 0 {
          return DailyResult(recs);
        }
      }
      if rangeWidth >= HOURLY_THRESHOLD_SECS {
        var recs := ReadRollupFile(if series in hourly then hourly[series] else [], start, end);
        if |recs| > 0 {
          return HourlyResult(recs);
        }
      }
      var v := store.Read(series);
      var points := ReadRaw(v.dir, v.index, v.buffer, start, end);
      result := RawResult(points);
    }
  }

  /** Combines the hours of a day. */
  method Summarize(dayStart: Word, recs: seq<Record>) returns (rec: Record)
    ensures rec == DailyOf(dayStart, recs)
  {
    var totalCount: Word32, totalWeightedSum, dayMin, dayMax := 0, 0.0, PosInf, NegInf;
    for i := 0 to |recs|
      invariant totalCount == TotalCount(recs[..i]) && totalWeightedSum == WeightedSum(recs[..i])
      invariant dayMin == LeastMin(recs[..i]) && dayMax == GreatestMax(recs[..i])
    {
      var r := recs[i];
      assert recs[..i + 1][..i] == recs[..i];
      totalCount := (totalCount + r.count) % TWO_TO_32;
      totalWeightedSum := totalWeightedSum + r.avg * r.count as real;
      if Below(r.min, dayMin) {
        dayMin := r.min;
      }
      if Below(dayMax, r.max) {
        dayMax := r.max;
      }
    }
    assert recs[..|recs|] == recs;
    rec := Record(dayStart, Quotient(totalWeightedSum, totalCount), dayMin, dayMax, totalCount);
  }

  method ReadRollupFile(file: seq<Record>, start: Word, end: Word) returns (recs: seq<Record>)
    ensures recs == ReadRollup(file, start, end)
  {
    recs := [];
    for i := 0 to |file|
      invariant recs == ReadRollup(file[..i], start, end)
    {
      assert file[..i + 1][..i] == file[..i];
      if (file[i].windowStart + HOUR) % TWO_TO_64 > start && file[i].windowStart <= end {
        recs := recs + [file[i]];
      }
    }
    assert file[..|file|] == file;
  }

  lemma SamplesLast(acked: seq<Point>, from: nat, p: Point)
    requires from <= |acked|
    ensures Samples((acked + [p])[from..]) == Samples(acked[from..]) + [SampleOf(p)]
  {
    assert (acked + [p])[from..] == acked[from..] + [p];
  }

  lemma HistoryLast(evs: seq<Event>, e: Event, x: Series)
    ensures History(evs + [e], x) == if e.Write? && e.x == x then History(evs, x) + [e.p] else History(evs, x)
  {
    assert (evs + [e])[..|evs|] == evs;
    assert History(evs, x) + [] == History(evs, x);
  }

  lemma RunLast(evs: seq<Event>, e: Event, x: Series)
    ensures Run(evs + [e], x) == Step(Run(evs, x), e, x)
  {
    assert (evs + [e])[..|evs|] == evs;
  }
}
