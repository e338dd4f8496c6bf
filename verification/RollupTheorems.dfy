/** What the hourly files promise about the samples: conservation of counts,
    sums, minima and maxima, exactly as long as the count field is wide enough. */
module RollupTheorems {
  import opened Words
  import opened Wrappers
  import opened Stores
  import opened Rollup

  // ---------------------------------------------------------------- aggregates

  datatype Agg = Agg(count: nat, sum: real, min: Bound, max: Bound)

  const ZERO := Agg(0, 0.0, PosInf, NegInf)

  function Plus(a: Agg, b: Agg): Agg {
    Agg(a.count + b.count, a.sum + b.sum, Lesser(a.min, b.min), Greater(a.max, b.max))
  }

  lemma PlusLaws(a: Agg, b: Agg, c: Agg)
    ensures Plus(a, b) == Plus(b, a) && Plus(Plus(a, b), c) == Plus(a, Plus(b, c))
    ensures Plus(a, ZERO) == a == Plus(ZERO, a)
  {
  }

  function OfSample(value: real): Agg {
    Agg(1, value, Fin(value), Fin(value))
  }

  function OfRecord(r: Record): Agg {
    Agg(r.count, r.avg * r.count as real, r.min, r.max)
  }

  function OfAcc(acc: Option<Acc>, sel: Word -> bool): Agg {
    match acc
    case None => ZERO
    case Some(a) => if sel(a.windowStart) then Agg(a.count, a.sum, a.min, a.max) else ZERO
  }

  /** Aggregate of the samples whose hour window is selected. */
  function OfSamples(h: seq<Sample>, sel: Word -> bool): Agg {
    if h == [] then ZERO
    else
      var last := h[|h| - 1];
      var before := OfSamples(h[..|h| - 1], sel);
      if sel(BucketStart(last.ts)) then Plus(before, OfSample(last.value)) else before
  }

  /** Aggregate of the records whose window is selected. */
  function OfRecords(rs: seq<Record>, sel: Word -> bool): Agg {
    if rs == [] then ZERO
    else
      var last := rs[|rs| - 1];
      var before := OfRecords(rs[..|rs| - 1], sel);
      if sel(last.windowStart) then Plus(before, OfRecord(last)) else before
  }

  /** An aggregate of these values: how many there are, their sum, and the least and
      the greatest of them, or the infinities if there are none. */
  ghost predicate Means(a: Agg, vs: seq<real>) {
    && a.count == |vs| && a.sum == Total(vs)
    && if vs == [] then a.min == PosInf && a.max == NegInf
       else && a.min.Fin? && a.min.r in vs && (forall v | v in vs :: a.min.r <= v)
            && a.max.Fin? && a.max.r in vs && forall v | v in vs :: v <= a.max.r
  }

  lemma OneMore(a: Agg, vs: seq<real>, v: real)
    requires Means(a, vs)
    ensures Means(Plus(a, OfSample(v)), vs + [v])
  {
    assert (vs + [v])[..|vs|] == vs;
  }

  /** What the aggregate of selected samples means. */
  lemma {:induction false} AggregateMeans(h: seq<Sample>, sel: Word -> bool)
    ensures Means(OfSamples(h, sel), Selection(h, sel))
  {
    hide Means;
    if h == [] {
      NothingMeans();
    } else {
      var init, last := h[..|h| - 1], h[|h| - 1];
      AggregateMeans(init, sel);
      OneMore(OfSamples(init, sel), Selection(init, sel), last.value);
      assert Selection(init, sel) + [] == Selection(init, sel);
    }
  }

  lemma NothingMeans()
    ensures Means(ZERO, [])
  {
  }

  /** The values of the samples whose hour is selected. */
  function Selection(h: seq<Sample>, sel: Word -> bool): seq<real> {
    if h == [] then []
    else
      var last := h[|h| - 1];
      Selection(h[..|h| - 1], sel) + if sel(last.ts / 3_600 * 3_600) then [last.value] else []
  }

  function Total(vs: seq<real>): real {
    if vs == [] then 0.0 else Total(vs[..|vs| - 1]) + vs[|vs| - 1]
  }

  function OneWindow(w: Word): Word -> bool {
    (v: Word) => v == w
  }

  function OneDay(d: Word): Word -> bool {
    (v: Word) => DayStart(v) == d
  }

  /** No hour has so many samples that the uint32 count wraps. */
  ghost predicate Countable(h: seq<Sample>) {
    forall w :: OfSamples(h, OneWindow(w)).count < TWO_TO_32
  }

  // ---------------------------------------------------------------- conservation

  /** The open accumulator is fresh or has samples. */
  ghost predicate AccOk(acc: Option<Acc>) {
    match acc
    case None => true
    case Some(a) => a.windowStart == BucketStart(a.windowStart) && (a.count == 0 ==> a == NewAcc(a.windowStart))
  }

  lemma RecordAgg(a: Acc)
    requires a.count > 0
    ensures OfRecord(RecordOf(a)) == Agg(a.count, a.sum, a.min, a.max)
  {
    assert a.sum / a.count as real * a.count as real == a.sum;
  }

  lemma EmittedAgg(hourly: seq<Record>, a: Acc, sel: Word -> bool)
    requires a.count > 0
    ensures OfRecords(hourly + [RecordOf(a)], sel) == Plus(OfRecords(hourly, sel), OfAcc(Some(a), sel))
  {
    RecordAgg(a);
    assert (hourly + [RecordOf(a)])[..|hourly|] == hourly;
    PlusLaws(OfRecords(hourly, sel), ZERO, ZERO);
  }

  lemma FreshAgg(w: Word, sel: Word -> bool)
    ensures OfAcc(Some(NewAcc(w)), sel) == ZERO
  {
  }

  lemma AddedAgg(a: Acc, value: real, sel: Word -> bool)
    requires a.count + 1 < TWO_TO_32
    ensures OfAcc(Some(AddSample(a, value)), sel)
         == if sel(a.windowStart) then Plus(OfAcc(Some(a), sel), OfSample(value)) else ZERO
  {
  }

  /** Written records plus the open hour. */
  function Held(s: SeriesRollup, sel: Word -> bool): Agg {
    Plus(OfRecords(s.hourly, sel), OfAcc(s.acc, sel))
  }

  lemma EmitHeld(s: SeriesRollup, a: Acc, sel: Word -> bool)
    requires s.acc == Some(a) && AccOk(s.acc)
    ensures OfRecords(Emit(s, a).hourly, sel) == Held(s, sel)
  {
    hide OfRecords, FinalizeDay, RecordOf;
    if a.count > 0 {
      EmittedAgg(s.hourly, a, sel);
    } else {
      FreshAgg(a.windowStart, sel);
      PlusLaws(OfRecords(s.hourly, sel), ZERO, ZERO);
    }
  }

  lemma WriteHeld(s: SeriesRollup, p: Sample, sel: Word -> bool)
    requires AccOk(s.acc) && Held(s, OneWindow(BucketStart(p.ts))).count + 1 < TWO_TO_32
    ensures AccOk(WriteStep(s, p).acc)
    ensures Held(WriteStep(s, p), sel)
         == if sel(BucketStart(p.ts)) then Plus(Held(s, sel), OfSample(p.value)) else Held(s, sel)
  {
    hide OfRecords, Emit, Plus, OfAcc, OfSample;
    var bucket, w := BucketStart(p.ts), OneWindow(BucketStart(p.ts));
    var a0 := if s.acc.Some? && s.acc.value.windowStart == bucket then s.acc.value else NewAcc(bucket);
    assert bucket == BucketStart(bucket);
    assert a0.count + 1 < TWO_TO_32 by { OpenCount(s, bucket); }
    AddedAgg(a0, p.value, sel);
    var rest := OfRecords(WriteStep(s, p).hourly, sel);
    assert Plus(rest, OfAcc(Some(a0), sel)) == Held(s, sel) by {
      FreshAgg(bucket, sel);
      PlusLaws(rest, ZERO, ZERO);
      match s.acc
      case None => assert OfAcc(None, sel) == ZERO by { NoneAgg(sel); }
      case Some(a) => if a.windowStart != bucket { EmitHeld(s, a, sel); }
    }
    PlusLaws(rest, OfAcc(Some(a0), sel), OfSample(p.value));
    UnselectedAcc(a0, sel);
    UnselectedAcc(AddSample(a0, p.value), sel);
  }

  lemma NoneAgg(sel: Word -> bool)
    ensures OfAcc(None, sel) == ZERO
  {
  }

  lemma UnselectedAcc(a: Acc, sel: Word -> bool)
    ensures !sel(a.windowStart) ==> OfAcc(Some(a), sel) == ZERO
  {
  }

  lemma OpenCount(s: SeriesRollup, w: Word)
    ensures s.acc.Some? && s.acc.value.windowStart == w ==> s.acc.value.count <= Held(s, OneWindow(w)).count
  {
    hide OfRecords;
  }

  lemma FlushHeld(s: SeriesRollup, sel: Word -> bool)
    requires AccOk(s.acc)
    ensures AccOk(FlushStep(s).acc) && Held(FlushStep(s), sel) == Held(s, sel)
  {
    hide OfRecords, Emit, Plus;
    if s.acc.Some? && s.acc.value.count > 0 {
      var a := s.acc.value;
      EmitHeld(s, a, sel);
      FreshAgg(a.windowStart, sel);
      PlusLaws(OfRecords(Emit(s, a).hourly, sel), ZERO, ZERO);
    }
  }

  lemma FewerSamples(h: seq<Sample>, sel: Word -> bool)
    requires h != []
    ensures OfSamples(h[..|h| - 1], sel).count <= OfSamples(h, sel).count
  {
  }

  lemma CountablePrefix(h: seq<Sample>)
    requires h != [] && Countable(h)
    ensures Countable(h[..|h| - 1])
  {
    hide OfSamples;
    forall w ensures OfSamples(h[..|h| - 1], OneWindow(w)).count < TWO_TO_32 {
      FewerSamples(h, OneWindow(w));
    }
  }

  /** For any order of timestamps, any interleaving of series and any flushes,
      and any set of hour windows: the counts, sums, minima and maxima of the
      hourly records written for these windows, combined with the open
      accumulator if it is on one of them, are those of all samples in them. */
  lemma {:induction false} Conservation(evs: seq<Event>, x: Series, sel: Word -> bool)
    requires Countable(History(evs, x))
    ensures Held(Run(evs, x), sel) == OfSamples(History(evs, x), sel) && AccOk(Run(evs, x).acc)
  {
    if evs == [] {
      NothingHeld(sel);
    } else {
      var before, e := evs[..|evs| - 1], evs[|evs| - 1];
      var h := History(evs, x);
      if e.Write? && e.x == x {
        assert h[..|h| - 1] == History(before, x);
        CountablePrefix(h);
        var w := OneWindow(BucketStart(e.p.ts));
        Conservation(before, x, sel);
        Conservation(before, x, w);
        LastSample(h, sel); LastSample(h, w);
        assert OfSamples(h, w).count < TWO_TO_32 by { CountableAt(h, BucketStart(e.p.ts)); }
        PlusCount(OfSamples(h[..|h| - 1], w), e.p.value);
        WriteHeld(Run(before, x), e.p, sel);
      } else {
        assert h == History(before, x);
        Conservation(before, x, sel);
        FlushHeld(Run(before, x), sel);
      }
    }
  }

  /** The same of an engine at work, in terms of its store: the records and the open
      hour aggregate exactly the points the store acknowledged in the engine's
      lifetime. */
  lemma AcknowledgedConserved(e: Engine, x: Series, sel: Word -> bool)
    requires e.Valid() && Countable(Samples(e.store.Acked(x)[|e.Earlier(x)|..]))
    ensures Held(e.View(x), sel) == OfSamples(Samples(e.store.Acked(x)[|e.Earlier(x)|..]), sel)
  {
    hide Run, History, Samples, OfSamples, Held, Countable, Store.Valid;
    Conservation(e.events, x, sel);
  }

  lemma NothingRun(x: Series)
    ensures Run([], x) == NOTHING
  {
  }

  lemma NothingHeld(sel: Word -> bool)
    ensures Held(NOTHING, sel) == ZERO == OfSamples([], sel) && AccOk(None)
  {
    hide Plus;
    NoneAgg(sel);
    PlusLaws(ZERO, ZERO, ZERO);
  }

  lemma CountableAt(h: seq<Sample>, w: Word)
    requires Countable(h)
    ensures OfSamples(h, OneWindow(w)).count < TWO_TO_32
  {
  }

  lemma LastSample(h: seq<Sample>, sel: Word -> bool)
    requires h != []
    ensures var last, before := h[|h| - 1], OfSamples(h[..|h| - 1], sel);
            OfSamples(h, sel) == if sel(BucketStart(last.ts)) then Plus(before, OfSample(last.value)) else before
  {
  }

  lemma PlusCount(a: Agg, value: real)
    ensures Plus(a, OfSample(value)).count == a.count + 1
  {
  }
}
