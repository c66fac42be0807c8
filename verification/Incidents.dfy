/** Concrete runs behind the conditions of the main results: what each condition rules out can
    happen. */
module Incidents {
  import opened Words
  import opened Clock
  import opened Timeline
  import opened RawSeries
  import opened Selection
  import opened Rollup
  import opened Window
  import opened WindowSteps
  import opened WindowFlush
  import opened WindowRuns
  import opened SeriesRead
  import opened CoarseSpec
  import opened Staging
  import Coarse

  const SERIES: SeriesKey := SeriesKey("cpu", "node", "tags")

  function PointAt(ts: int64): Point {
    Point(SERIES, "{}", "labels", "{}", ts, 0)
  }

  /** A state with one sample in the window and its bucket pending. */
  function OnePending(p: Point): State {
    State(map[p.series := [EntryOf(p)]], map[KeyOf(p) := Single(Observe(EntryOf(p)))], {}, map[], map[])
  }

  /** Ingesting a single point. */
  lemma IngestOne(st: State, p: Point, now: int)
    ensures var cutoff := RawCutoff(now); var trimmed := Trim(st.raw, cutoff);
            var raw, keys := PutRaw(trimmed, p, cutoff), MarkedKeys(trimmed, p, cutoff, DirectCutoff(now));
            Ingest(st, [p], now) == State(raw, Rebuilt(AddHot(st.hot, p), raw, keys), st.replace + keys, st.rows, st.flushed)
  {
    hide Trim, PutRaw, MarkedKeys, AddHot, Rebuilt, RawCutoff;
    var points, cutoff := [p], RawCutoff(now);
    var trimmed := Trim(st.raw, cutoff);
    assert points[..0] == [];
    assert PutAll(trimmed, points[..0], cutoff) == trimmed;
    assert RebuildKeys(trimmed, points[..0], cutoff, DirectCutoff(now)) == {};
    assert AddHotAll(st.hot, points[..0]) == st.hot;
    assert {} + MarkedKeys(trimmed, p, cutoff, DirectCutoff(now)) == MarkedKeys(trimmed, p, cutoff, DirectCutoff(now));
  }

  lemma NothingRebuilt(hot: Buckets, raw: RawWindow)
    ensures Rebuilt(hot, raw, {}) == hot
  {
  }

  /** A window that holds one sample which is not too old. */
  lemma KeptByTrim(s: SeriesKey, e: Entry, cutoff: int)
    requires cutoff <= e.timestamp
    ensures Trim(map[s := [e]], cutoff) == map[s := [e]]
  {
    AllFrom([e], cutoff);
  }

  lemma NothingTrimmed(cutoff: int)
    ensures Trim(map[], cutoff) == map[]
  {
  }

  lemma FirstAdded(p: Point)
    ensures AddHot(map[], p) == map[KeyOf(p) := Single(Observe(EntryOf(p)))]
  {
    hide Observe, KeyOf;
  }

  lemma OneInMap(e: Entry)
    ensures ToMap([e]) == map[e.timestamp := e]
  {
    assert [e][..0] == [];
  }

  /** Writing one current point into an empty store. */
  lemma FirstWrite(p: Point, now: int)
    requires RawCutoff(now) <= p.timestamp && DirectCutoff(now) <= p.timestamp
    requires BucketStart(now, MINUTE) <= KeyOf(p).bucket
    ensures var step := Step.Write([p], now, now, true, []);
            Enumerates([], ClosedKeys(Middle(START, step).hot, now)) && Do(START, step) == OnePending(p)
  {
    hide BucketStart, FloatOf, Upsert, Ingest, Rebuilt, FlushHot, Observe;
    IngestOne(START, p, now);
    EmptyUpsert(EntryOf(p));
    NothingTrimmed(RawCutoff(now));
    ToMapEmpty<LabelSet>();
    assert MarkedKeys(map[], p, RawCutoff(now), DirectCutoff(now)) == {};
    NothingRebuilt(AddHot(map[], p), PutRaw(map[], p, RawCutoff(now)));
    FirstAdded(p);
    assert Middle(START, Step.Write([p], now, now, true, [])) == OnePending(p);
    assert ClosedKeys(OnePending(p).hot, now) == {};
    NothingFlushed(OnePending(p), now);
  }

  lemma EmptyUpsert(e: Entry)
    ensures Upsert([], e) == [e]
  {
  }

  lemma NothingFlushed(st: State, now: int)
    requires ClosedKeys(st.hot, now) == {}
    ensures FlushHot(st, now, true, []) == st
  {
  }

  /** Flushing the only pending bucket. */
  lemma ThenFlush(p: Point, now: int)
    requires KeyOf(p).bucket < BucketStart(now, MINUTE) && RawCutoff(now) <= p.timestamp
    ensures var step, k, st := Step.Flush(now, true, [KeyOf(p)]), KeyOf(p), OnePending(p);
            && Enumerates([k], ClosedKeys(Middle(st, step).hot, now))
            && Do(st, step).raw == st.raw && Do(st, step).hot == map[] && Do(st, step).replace == {}
            && Do(st, step).rows == map[StoredKey(k) := st.hot[k]]
  {
    hide BucketStart, NormalizeBucket, FloatOf, Trim, MergePass, ReplacePass, StampsOf, Observe;
    var k, st := KeyOf(p), OnePending(p);
    KeptByTrim(p.series, EntryOf(p), RawCutoff(now));
    assert ClosedKeys(st.hot, now) == {k};
    OneMerged(st.hot, k);
    assert st.hot - {k} == map[];
  }

  lemma OneMerged(hot: Buckets, k: HotKey)
    requires k in hot
    ensures MergePass(map[], hot, {}, [k]) == map[StoredKey(k) := hot[k]]
    ensures ReplacePass(map[StoredKey(k) := hot[k]], hot, {}, [k]) == map[StoredKey(k) := hot[k]]
  {
    hide StoredKey, Merge;
    assert [k][..0] == [];
    assert MergePass(map[], hot, {}, [k][..0]) == map[];
    assert ReplacePass(map[StoredKey(k) := hot[k]], hot, {}, [k][..0]) == map[StoredKey(k) := hot[k]];
  }

  /** The first sample, written at sixteen minutes, and the flush that makes a row of it. */
  function Opening(): seq<Step> {
    [Step.Write([PointAt(960_000)], 970_000, 970_000, true, []), Step.Flush(1_025_000, true, [KeyOf(PointAt(960_000))])]
  }

  lemma OpeningRun()
    ensures LegalRun(Opening()) && LastTime(Opening()) == 1_025_000
    ensures var p, st := PointAt(960_000), Run(Opening());
            && st.raw == map[SERIES := [EntryOf(p)]] && st.hot == map[] && st.replace == {}
            && st.rows == map[KeyOf(p) := Single(Observe(EntryOf(p)))]
  {
    hide FloatOf, Do, Middle;
    var p := PointAt(960_000);
    var steps := Opening();
    assert KeyOf(p).bucket == 960_000;
    assert BucketStart(970_000, MINUTE) == 960_000 && BucketStart(1_025_000, MINUTE) == 1_020_000;
    assert RawCutoff(970_000) == 360_000 && RawCutoff(1_025_000) == 420_000;
    FirstWrite(p, 970_000);
    ThenFlush(p, 1_025_000);
    assert steps[..1] == [steps[0]] && steps[..1][..0] == [];
    assert Run(steps[..1][..0]) == START;
    assert Run(steps[..1]) == OnePending(p);
    assert LegalRun(steps[..1][..0]);
    assert LegalRun(steps[..1]);
  }

  /** A minute that is flushed twice by merging is staged as its second part only. */
  lemma SecondPartStaged(ladders: Ladders)
    requires ValidLadders(ladders) && |ladders(SERIES.metricName)| >= 2
    ensures exists steps: seq<Step>, k: HotKey :: LegalRun(steps) && AllCommitted(steps)
                               && BucketOf(StagedBy(ladders, steps), k) != BucketOf(Run(steps).rows, k)
  {
    hide FloatOf, Do, Middle, Run, Coarse.Eligible, StagedBy, LegalRun;
    OpeningRun();
    var k, p := KeyOf(PointAt(960_000)), PointAt(970_000);
    var step := Step.Write([p], 1_025_000, 1_025_000, true, [k]);
    SecondWrite(Run(Opening()), step);
    var steps := Opening() + [step];
    OneMoreStep(Opening(), step);
    FreshIsHandedOver(ladders, k, 1_025_000);
    StagedIsRowIff(ladders, Opening(), step, k);
    assert LegalRun(steps) && AllCommitted(steps);
  }

  lemma OneMoreStep(steps: seq<Step>, step: Step)
    requires LegalRun(steps) && Legal(Run(steps), LastTime(steps), step)
    ensures LegalRun(steps + [step]) && Run(steps + [step]) == Do(Run(steps), step)
  {
    hide Do, Legal;
    assert (steps + [step])[..|steps|] == steps;
  }

  /** A new sample of the minute that has just become a row. */
  lemma SecondWrite(st: State, step: Step)
    requires st.raw == map[SERIES := [EntryOf(PointAt(960_000))]] && st.hot == map[] && st.replace == {}
    requires step == Step.Write([PointAt(970_000)], 1_025_000, 1_025_000, true, [KeyOf(PointAt(960_000))])
    ensures var k := KeyOf(PointAt(960_000));
            && k.bucket == 960_000 && Legal(st, 1_025_000, step)
            && k in CommittedBy(st, step) && k !in Middle(st, step).replace
  {
    hide FloatOf, AddPoint, PutRaw, Ingest, Trim, ToMap, Rebuilt, Observe;
    var p, k := PointAt(970_000), KeyOf(PointAt(960_000));
    SameMinuteAgain();
    IngestOne(st, p, 1_025_000);
    KeptByTrim(SERIES, EntryOf(PointAt(960_000)), 420_000);
    OneInMap(EntryOf(PointAt(960_000)));
    assert MarkedKeys(st.raw, p, 420_000, DirectCutoff(1_025_000)) == {};
    NothingRebuilt(AddHot(map[], p), PutRaw(st.raw, p, 420_000));
    assert Middle(st, step).hot == AddHot(map[], p);
    assert AddHot(map[], p).Keys == {k};
    assert ClosedKeys(Middle(st, step).hot, 1_025_000) == {k};
  }

  lemma SameMinuteAgain()
    ensures KeyOf(PointAt(970_000)) == KeyOf(PointAt(960_000)) && KeyOf(PointAt(960_000)).bucket == 960_000
    ensures BucketStart(1_025_000, MINUTE) == 1_020_000 && RawCutoff(1_025_000) == 420_000
  {
  }

  /** A committed flush, a late duplicate and a failed flush leave a replacement pending on top
      of the row it should replace, and a reader adds the two up. */
  lemma FailedReplaceMisread()
    ensures exists steps: seq<Step>, k: HotKey :: LegalRun(steps) && k.bucket >= WindowStart(steps) && k.bucket >= 0
                               && Merge(BucketOf(Run(steps).rows, k), BucketOf(Run(steps).hot, k)) != MinuteSummary(Run(steps).raw, k)
  {
    hide FloatOf, Do, Middle, Run, LegalRun, Good, Merge, MinuteSummary;
    OpeningRun();
    var k := KeyOf(PointAt(960_000));
    var step := Step.Write([PointAt(960_000)], 1_025_000, 1_025_000, false, [k]);
    LateDuplicate(Run(Opening()), step);
    var steps := Opening() + [step];
    OneMoreStep(Opening(), step);
    assert Run(steps) == Middle(Run(Opening()), step);
    RunGood(steps);
    assert WindowStart(steps) == RawCutoff(1_025_000) == 420_000;
    MisreadKey(steps, k);
  }

  lemma MisreadKey(steps: seq<Step>, k: HotKey)
    requires LegalRun(steps) && k.bucket >= WindowStart(steps) && k.bucket >= 0
    requires k in Run(steps).replace && k in Run(steps).rows
    ensures Merge(BucketOf(Run(steps).rows, k), BucketOf(Run(steps).hot, k)) != MinuteSummary(Run(steps).raw, k)
  {
    hide Accounts, Latest, From, Run, LegalRun, Merge, MinuteSummary, WellFormed;
    RunGood(steps);
    ReaderExactIff(Run(steps), k);
  }

  /** A second sample with the timestamp of the first, a minute behind. */
  lemma LateDuplicate(st: State, step: Step)
    requires st.raw == map[SERIES := [EntryOf(PointAt(960_000))]] && st.hot == map[] && st.replace == {}
    requires step == Step.Write([PointAt(960_000)], 1_025_000, 1_025_000, false, [KeyOf(PointAt(960_000))])
    ensures var k := KeyOf(PointAt(960_000));
            && k.bucket == 960_000 && Legal(st, 1_025_000, step)
            && k in Middle(st, step).replace && Middle(st, step).rows == st.rows && Do(st, step) == Middle(st, step)
  {
    hide FloatOf, AddPoint, PutRaw, Ingest, Trim, ToMap, MinuteSummary, Observe;
    var p, k := PointAt(960_000), KeyOf(PointAt(960_000));
    SameMinuteAgain();
    IngestOne(st, p, 1_025_000);
    KeptByTrim(SERIES, EntryOf(p), 420_000);
    OneInMap(EntryOf(p));
    assert Marks([EntryOf(p)], EntryOf(p), DirectCutoff(1_025_000)) == {"labels"};
    assert MarkedKeys(st.raw, p, 420_000, DirectCutoff(1_025_000)) == {k};
    assert Middle(st, step).hot.Keys == {k};
    assert ClosedKeys(Middle(st, step).hot, 1_025_000) == {k};
  }

  /** In the year 2286 a minute that is flushed by merging lands in a row of 1970 and is lost to
      its own key, although its sample is still in the raw window. */
  lemma FarFutureMinuteLost()
    ensures exists steps: seq<Step>, k: HotKey :: (forall i :: 0 <= i < |steps| ==> steps[i].ok)
                               && Denote(Run(steps), k) != MinuteSummary(Run(steps).raw, k)
                               && HotKey(k.series, k.labelsHash, 10_000_000) in Run(steps).rows
  {
    hide FloatOf, Do, Middle;
    var ts := NORMALIZE_LIMIT + 80_000;
    var p := PointAt(ts);
    var k := KeyOf(p);
    assert k.bucket == ts;
    assert StoredKey(k) == HotKey(SERIES, "labels", 10_000_000);
    assert BucketStart(ts + 1000, MINUTE) == ts && BucketStart(ts + MINUTE, MINUTE) == ts + MINUTE;
    FirstWrite(p, ts + 1000);
    ThenFlush(p, ts + MINUTE);
    var steps := [Step.Write([p], ts + 1000, ts + 1000, true, []), Step.Flush(ts + MINUTE, true, [k])];
    assert steps[..1] == [steps[0]] && steps[..1][..0] == [];
    assert Run(steps[..1][..0]) == START;
    assert Run(steps[..1]) == OnePending(p);
    LoneSample(p, Run(steps));
  }

  lemma LoneSample(p: Point, st: State)
    requires st.raw == map[p.series := [EntryOf(p)]] && KeyOf(p) !in st.hot && KeyOf(p) !in st.rows && KeyOf(p) !in st.replace
    ensures Denote(st, KeyOf(p)) != MinuteSummary(st.raw, KeyOf(p))
  {
    hide BucketStart, FloatOf, Fold, Pick;
    PickNonEmpty([EntryOf(p)], InKey(KeyOf(p)), 0);
  }
}
