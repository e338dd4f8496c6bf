/** Raw points and rollups of one series side by side: they tell the same exactly as
    long as every logged write was acknowledged. */
module RollupTiers {
  import opened Words
  import opened Wrappers
  import opened Stores
  import opened StoreImpl
  import opened Subsequences
  import opened Rollup
  import opened RollupTheorems
  import StoreMachine
  import StoreTheorems

  function EveryWindow(): Word -> bool {
    (w: Word) => true
  }

  lemma {:induction false} AllCounted(h: seq<Sample>)
    ensures OfSamples(h, EveryWindow()).count == |h|
  {
    if h != [] {
      AllCounted(h[..|h| - 1]);
    }
  }

  /** For a series first written in this engine's lifetime, in a store that has not
      crashed: over every set of hour windows the records and the open hour aggregate
      exactly the points a raw query of all times shows, if and only if every logged
      write was acknowledged. A write that fails after it was logged is the only way
      for the tiers to differ. */
  lemma TiersAgreeExactly(e: Engine, x: Series)
    requires e.Valid() && x in e.store.series && e.Earlier(x) == []
    requires var st := e.store.series[x];
             && StoreMachine.RotatesFairly(st.events, StoreMachine.MAX_CHUNK_ID)
             && StoreTheorems.CrashFree(st.events) && StoreMachine.Lossless(st.state)
             && Countable(Samples(st.state.acked))
    ensures var st := e.store.series[x];
            && ((forall sel :: Held(e.View(x), sel) == OfSamples(Samples(PointsOf(e.store.Shown(x))), sel))
                <==> st.state.acked == st.state.logged)
  {
    hide Run, History, Samples, OfSamples, Held, Countable, PointsOf, StoreMachine.Run, StoreMachine.Lossless,
         EveryWindow,
      StoreMachine.RotatesFairly, StoreMachine.Visible, StoreMachine.Kept;
    var st := e.store.series[x];
    var acked, logged := st.state.acked, st.state.logged;
    ReadyState(st);
    StoreTheorems.CrashFreeOrder(st.events);
    StoreTheorems.AckedAreLogged(st.events);
    SubseqCounts(acked, logged);
    assert acked[0..] == acked;
    forall sel ensures Held(e.View(x), sel) == OfSamples(Samples(acked), sel) {
      AcknowledgedConserved(e, x, sel);
    }
    assert PointsOf(e.store.Shown(x)) == logged;
    if forall sel :: Held(e.View(x), sel) == OfSamples(Samples(logged), sel) {
      assert Held(e.View(x), EveryWindow()) == OfSamples(Samples(logged), EveryWindow());
      AllCounted(Samples(acked)); AllCounted(Samples(logged));
      assert |acked| == |logged|;
    }
  }
}
