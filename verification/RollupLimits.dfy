/** Where the uint32 counts end: an hour of 2^32 samples is lost, and a day of as
    many gets a wrong daily record. */
module RollupLimits {
  import opened Words
  import opened Wrappers
  import opened Stores
  import opened Rollup
  import opened RollupTheorems
  import opened RollupDaily
  import opened RollupOrdered

  // ---------------------------------------------------------------- the count of an hour

  /** No series has more than this many samples in one hour. */
  ghost predicate WithinLimit(evs: seq<Event>, limit: nat) {
    forall x, w :: OfSamples(History(evs, x), OneWindow(w)).count <= limit
  }

  ghost predicate Conserved(evs: seq<Event>) {
    forall x, w :: Held(Run(evs, x), OneWindow(w)) == OfSamples(History(evs, x), OneWindow(w))
  }

  /** The same sample n times. */
  function Repeated(n: nat): (evs: seq<Event>)
    ensures |evs| == n
  {
    if n == 0 then [] else Repeated(n - 1) + [Write("s", Sample(0, 0.0))]
  }

  function SameSample(n: nat): (h: seq<Sample>)
    ensures |h| == n
  {
    if n == 0 then [] else SameSample(n - 1) + [Sample(0, 0.0)]
  }

  lemma {:induction false} RepeatedHistory(n: nat, x: Series)
    ensures History(Repeated(n), x) == if x == "s" then SameSample(n) else []
  {
    if n > 0 {
      RepeatedHistory(n - 1, x);
      assert Repeated(n)[..n - 1] == Repeated(n - 1);
    }
  }

  lemma {:induction false} RepeatedRun(n: nat)
    requires n > 0
    ensures Run(Repeated(n), "s") == SeriesRollup(Some(Acc(0, 0.0, Fin(0.0), Fin(0.0), n % TWO_TO_32)), [], [])
  {
    hide Run;
    RunLast(Repeated(n - 1), Write("s", Sample(0, 0.0)), "s");
    if n > 1 {
      RepeatedRun(n - 1);
    } else {
      NothingRun("s");
    }
  }

  lemma {:induction false} SameCount(n: nat, w: Word)
    ensures OfSamples(SameSample(n), OneWindow(w)).count == if w == 0 then n else 0
  {
    hide OfSamples, Plus, OfSample, BucketStart;
    if n == 0 {
      assert OfSamples([], OneWindow(w)) == ZERO by { NothingHeld(OneWindow(w)); }
    } else {
      SameCount(n - 1, w);
      assert SameSample(n)[..n - 1] == SameSample(n - 1);
      LastSample(SameSample(n), OneWindow(w));
      PlusCount(OfSamples(SameSample(n - 1), OneWindow(w)), 0.0);
      FirstBucket();
    }
  }

  lemma FirstBucket()
    ensures BucketStart(0) == 0
  {
  }

  /** So many samples in one hour that the count wraps to zero are lost. */
  lemma OverflowLoses(n: nat)
    requires n > 0 && n % TWO_TO_32 == 0
    ensures !Conserved(Repeated(n)) && WithinLimit(Repeated(n), n)
  {
    hide Held;
    RepeatedRun(n);
    forall x, w ensures OfSamples(History(Repeated(n), x), OneWindow(w)).count <= n {
      RepeatedHistory(n, x);
      SameCount(n, w);
      SameCount(0, w);
      assert SameSample(0) == [];
    }
    RepeatedHistory(n, "s");
    SameCount(n, 0);
    OverflownHeld();
    assert Held(Run(Repeated(n), "s"), OneWindow(0)) != OfSamples(History(Repeated(n), "s"), OneWindow(0));
  }

  lemma OverflownHeld()
    ensures Held(SeriesRollup(Some(Acc(0, 0.0, Fin(0.0), Fin(0.0), 0)), [], []), OneWindow(0)).count == 0
  {
    hide Lesser, Greater, OfRecords;
    assert OfRecords([], OneWindow(0)) == ZERO by { NoRecords(OneWindow(0)); }
  }

  lemma NoRecords(sel: Word -> bool)
    ensures OfRecords([], sel) == ZERO
  {
  }

  lemma ConservedBelow(evs: seq<Event>, limit: nat)
    requires WithinLimit(evs, limit) && limit < TWO_TO_32
    ensures Conserved(evs)
  {
    hide OfSamples, Held, Run, History;
    forall x, w ensures Held(Run(evs, x), OneWindow(w)) == OfSamples(History(evs, x), OneWindow(w)) {
      Conservation(evs, x, OneWindow(w));
    }
  }

  /** Conservation holds for all runs with at most so many samples of a series in
      one hour exactly when that number fits the count field. */
  lemma ConservedExactlyToCount(limit: nat)
    ensures (forall evs | WithinLimit(evs, limit) :: Conserved(evs)) <==> limit < TWO_TO_32
  {
    if limit < TWO_TO_32 {
      forall evs | WithinLimit(evs, limit) ensures Conserved(evs) {
        ConservedBelow(evs, limit);
      }
    } else {
      OverflowLoses(TWO_TO_32);
      assert WithinLimit(Repeated(TWO_TO_32), limit);
    }
  }

  // ---------------------------------------------------------------- the count of a day

  /** No series has more than this many samples in one day. */
  ghost predicate WithinDayLimit(evs: seq<Event>, limit: nat) {
    forall x, d :: OfSamples(History(evs, x), OneDay(d)).count <= limit
  }

  /** Every daily record was exact when it was written. */
  ghost predicate DailyAllExact(evs: seq<Event>) {
    forall x, i | 0 <= i < |Run(evs, x).daily| :: ExactOnce(evs, x, Run(evs, x).daily[i])
  }

  /** n samples in the first hour, then one in each of k more hours. */
  function Hourly(n: nat, k: nat): seq<Event>
    requires k <= 24
  {
    if k == 0 then Repeated(n) else Hourly(n, k - 1) + [Write("s", Sample(k * HOUR, 0.0))]
  }

  function HourlySamples(n: nat, k: nat): (h: seq<Sample>)
    requires k <= 24
    ensures |h| == n + k
  {
    if k == 0 then SameSample(n) else HourlySamples(n, k - 1) + [Sample(k * HOUR, 0.0)]
  }

  lemma {:induction false} HourlyHistory(n: nat, k: nat, x: Series)
    requires k <= 24
    ensures |Hourly(n, k)| == n + k && NoFlush(Hourly(n, k))
    ensures History(Hourly(n, k), x) == if x == "s" then HourlySamples(n, k) else []
    ensures forall e | e in Hourly(n, k) :: e.Write? && e.p.ts <= k * HOUR
  {
    hide Repeated, SameSample, History;
    if k == 0 {
      RepeatedHistory(n, x);
      RepeatedWrites(n);
    } else {
      HourlyHistory(n, k - 1, x);
      HistoryLast(Hourly(n, k - 1), Write("s", Sample(k * HOUR, 0.0)), x);
    }
  }

  lemma {:induction false} RepeatedWrites(n: nat)
    ensures forall e | e in Repeated(n) :: e == Write("s", Sample(0, 0.0))
  {
    if n > 0 {
      RepeatedWrites(n - 1);
    }
  }

  lemma {:induction false} HourlyInOrder(n: nat, k: nat)
    requires k <= 24
    ensures InTimeOrder(HourlySamples(n, k)) && forall i | 0 <= i < n + k :: HourlySamples(n, k)[i].ts <= k * HOUR
  {
    if k == 0 {
      SameSamples(n);
    } else {
      HourlyInOrder(n, k - 1);
    }
  }

  lemma {:induction false} SameSamples(n: nat)
    ensures forall i | 0 <= i < n :: SameSample(n)[i] == Sample(0, 0.0)
  {
    if n > 0 {
      SameSamples(n - 1);
    }
  }

  lemma HourBucket(k: nat)
    requires k <= 24
    ensures BucketStart(k * HOUR) == k * HOUR && DayStart(k * HOUR) == if k < 24 then 0 else DAY
  {
  }

  /** Each hour but the first gets one sample, and so does no later hour. */
  lemma {:induction false} HourlyCount(n: nat, k: nat, w: Word)
    requires k <= 24 && n > 0
    ensures OfSamples(HourlySamples(n, k), OneWindow(w)).count <= n
    ensures w > k * HOUR ==> OfSamples(HourlySamples(n, k), OneWindow(w)).count == 0
  {
    hide OfSamples, Plus, OfSample, BucketStart, SameSample;
    if k == 0 {
      SameCount(n, w);
    } else {
      HourlyCount(n, k - 1, w);
      LastHourly(n, k, OneWindow(w));
    }
  }

  lemma LastHourly(n: nat, k: nat, sel: Word -> bool)
    requires 0 < k <= 24
    ensures OfSamples(HourlySamples(n, k), sel).count
         == OfSamples(HourlySamples(n, k - 1), sel).count + if sel(k * HOUR) then 1 else 0
  {
    hide OfSamples, Plus, OfSample, BucketStart;
    var h := HourlySamples(n, k);
    assert h[..|h| - 1] == HourlySamples(n, k - 1);
    LastSample(h, sel);
    PlusCount(OfSamples(HourlySamples(n, k - 1), sel), 0.0);
    HourBucket(k);
  }

  lemma {:induction false} DayCount(n: nat, k: nat, d: Word)
    requires k <= 24
    ensures OfSamples(HourlySamples(n, k), OneDay(d)).count
         == if d == 0 then n + (if k < 24 then k else 23) else if d == DAY && k == 24 then 1 else 0
  {
    hide OfSamples, DayStart, SameSample;
    if k == 0 {
      SameDayCount(n, d);
    } else {
      DayCount(n, k - 1, d);
      LastHourly(n, k, OneDay(d));
      HourBucket(k);
    }
  }

  lemma {:induction false} SameDayCount(n: nat, d: Word)
    ensures OfSamples(SameSample(n), OneDay(d)).count == if d == 0 then n else 0
  {
    hide OfSamples, Plus, OfSample, BucketStart;
    if n == 0 {
      NothingHeld(OneDay(d));
    } else {
      SameDayCount(n - 1, d);
      assert SameSample(n)[..n - 1] == SameSample(n - 1);
      LastSample(SameSample(n), OneDay(d));
      PlusCount(OfSamples(SameSample(n - 1), OneDay(d)), 0.0);
      FirstBucket();
    }
  }

  lemma {:induction false} HasHour(n: nat, k: nat, j: nat)
    requires n > 0 && j <= k <= 24
    ensures HasSample(HourlySamples(n, k), j * HOUR)
  {
    hide HasSample, BucketStart;
    HourBucket(k);
    if k == 0 {
      SameSamples(n);
      HasThisSample(HourlySamples(n, 0), 0);
    } else if j == k {
      HasThisSample(HourlySamples(n, k), n + k - 1);
    } else {
      HasHour(n, k - 1, j);
      SampleAppend(HourlySamples(n, k - 1), Sample(k * HOUR, 0.0), j * HOUR);
    }
  }

  /** A day whose 24 hours hold 2^32 samples together gets a daily record, but no
      exact one: its count is a uint32. */
  lemma FullDayWraps(n: nat)
    requires n == TWO_TO_32 - 23
    ensures WithinDayLimit(Hourly(n, 24), TWO_TO_32) && !DailyAllExact(Hourly(n, 24))
  {
    FullDayWithin(n);
    FullDayRecorded(n);
    var daily := Run(Hourly(n, 24), "s").daily;
    var i := RecordOfDay(daily, 0);
    FullDayInexact(n, daily[i]);
  }

  lemma FullDayWithin(n: nat)
    requires n > 0
    ensures WithinDayLimit(Hourly(n, 24), n + 23)
  {
    hide Hourly, OfSamples, History, OneDay;
    forall x, d: Word ensures OfSamples(History(Hourly(n, 24), x), OneDay(d)).count <= n + 23 {
      FullDayCount(n, x, d);
    }
  }

  lemma FullDayCount(n: nat, x: Series, d: Word)
    requires n > 0
    ensures OfSamples(History(Hourly(n, 24), x), OneDay(d)).count <= n + 23
  {
    hide OneDay;
    HourlyHistory(n, 24, x);
    DayCount(n, 24, d);
    NothingHeld(OneDay(d));
  }

  lemma FullDayRecorded(n: nat)
    requires 0 < n < TWO_TO_32
    ensures HasRecord(Run(Hourly(n, 24), "s").daily, 0)
  {
    var h := HourlySamples(n, 24);
    HourlyHistory(n, 24, "s"); HourlyInOrder(n, 24);
    forall w ensures OfSamples(h, OneWindow(w)).count < TWO_TO_32 { HourlyCount(n, 24, w); }
    forall k | 0 <= k < 24 ensures HasSample(h, 0 + k * HOUR) { HasHour(n, 24, k); }
    LastIsNextDay(n);
    DailyInOrder(Hourly(n, 24), "s", 0);
  }

  lemma RecordOfDay(rs: seq<Record>, d: Word) returns (i: nat)
    requires HasRecord(rs, d)
    ensures i < |rs| && rs[i].windowStart == d
  {
    i :| i < |rs| && rs[i].windowStart == d;
  }

  lemma LastIsNextDay(n: nat)
    ensures var h := HourlySamples(n, 24); |h| == n + 24 && h[n + 23].ts == DAY
  {
  }

  lemma FullDayInexact(n: nat, r: Record)
    requires n == TWO_TO_32 - 23 && r.windowStart == 0
    ensures !ExactOnce(Hourly(n, 24), "s", r)
  {
    hide Hourly, ExactOnce;
    if ExactOnce(Hourly(n, 24), "s", r) {
      ExactDayCount(n, r);
    }
  }

  /** An exact daily record of the first day counts all its samples. */
  lemma ExactDayCount(n: nat, r: Record)
    requires 0 < n < TWO_TO_32 && r.windowStart == 0 && ExactOnce(Hourly(n, 24), "s", r)
    ensures r.count == n + 23
  {
    hide Hourly;
    var evs := Hourly(n, 24);
    var m: nat :| ExactAt(evs, "s", r, m);
    HourlyHistory(n, 24, "s"); HourlyInOrder(n, 24);
    forall w ensures OfSamples(HourlySamples(n, 24), OneWindow(w)).count < TWO_TO_32 { HourlyCount(n, 24, w); }
    ClosedDayIsOver(evs, "s", r, m);
    OnlyLastIsLater(n, m);
    HourlyHistory(n, 23, "s");
    DayCount(n, 23, 0);
  }

  lemma OnlyLastIsLater(n: nat, m: nat)
    requires |Hourly(n, 24)| == n + 24 && m < n + 24 && Hourly(n, 24)[m].Write? && Hourly(n, 24)[m].p.ts >= DAY
    ensures Hourly(n, 24)[..m] == Hourly(n, 23)
  {
    HourlyHistory(n, 23, "s");
    if m < n + 23 {
      EarlierIsToday(n, m);
    }
  }

  lemma EarlierIsToday(n: nat, m: nat)
    requires |Hourly(n, 24)| == n + 24 && m < n + 23
    ensures Hourly(n, 24)[m].Write? && Hourly(n, 24)[m].p.ts < DAY
  {
    HourlyHistory(n, 23, "s");
    assert Hourly(n, 24)[m] == Hourly(n, 23)[m] && Hourly(n, 23)[m] in Hourly(n, 23);
  }

  lemma ExactBelow(evs: seq<Event>, limit: nat)
    requires WithinDayLimit(evs, limit) && limit < TWO_TO_32
    ensures DailyAllExact(evs)
  {
    hide OfSamples, Run, History, ExactOnce;
    forall x, i | 0 <= i < |Run(evs, x).daily| ensures ExactOnce(evs, x, Run(evs, x).daily[i]) {
      DailyExact(evs, x);
    }
  }

  /** Daily records are exact in all runs with at most so many samples of a series
      in one day exactly when that number fits the count field. */
  lemma DailyExactlyToCount(limit: nat)
    ensures (forall evs | WithinDayLimit(evs, limit) :: DailyAllExact(evs)) <==> limit < TWO_TO_32
  {
    hide OfSamples, Run, History, Hourly, DailyAllExact;
    if limit < TWO_TO_32 {
      forall evs | WithinDayLimit(evs, limit) ensures DailyAllExact(evs) {
        ExactBelow(evs, limit);
      }
    } else {
      FullDayWraps(TWO_TO_32 - 23);
      assert WithinDayLimit(Hourly(TWO_TO_32 - 23, 24), limit);
    }
  }
}
