/** Reading the store: the raw query over the table's objects, and the minute-tier series
    query over rows and pending buckets, whose answers agree. */
module StoreRead {
  import opened Words
  import opened Clock
  import opened Timeline
  import opened RawSeries
  import opened Selection
  import opened Rollup
  import opened Window
  import opened WindowSteps
  import opened WindowFlush
  import opened WindowRuns
  import opened Aggregate
  import opened SeriesRead
  import opened SeriesResult
  import opened SeriesMerged
  import opened RawAnswers
  import opened RawTable
  import opened Store

  // ---- sorting ----------------------------------------------------------------------------------

  /** `p` goes behind every point that is not later, so in front of none of its own series. */
  method InsertPoint(sorted: seq<RawPoint>, p: RawPoint) returns (result: seq<RawPoint>)
    requires Sorted(sorted) && SeriesOrdered(sorted + [p])
    ensures Sorted(result)
    ensures forall s :: OfSeries(result, s) == OfSeries(sorted + [p], s)
  {
    hide OfSeries, SeriesOrdered;
    var i := |sorted|;
    while i > 0 && sorted[i - 1].obs.ts > p.obs.ts
      invariant 0 <= i <= |sorted|
      invariant forall j :: i <= j < |sorted| ==> sorted[j].obs.ts > p.obs.ts
    {
      i := i - 1;
    }
    result := sorted[..i] + [p] + sorted[i..];
    InsertKeepsSeries(sorted, i, p);
  }

  /** Orders the points by time and keeps the order within each series. */
  method SortPoints(points: seq<RawPoint>) returns (sorted: seq<RawPoint>)
    requires SeriesOrdered(points)
    ensures Sorted(sorted)
    ensures forall s :: OfSeries(sorted, s) == OfSeries(points, s)
  {
    hide OfSeries;
    sorted := [];
    var i := 0;
    while i < |points|
      invariant 0 <= i <= |points| && Sorted(sorted)
      invariant forall s :: OfSeries(sorted, s) == OfSeries(points[..i], s)
    {
      PrefixOrdered(points, i + 1);
      assert points[..i + 1] == points[..i] + [points[i]];
      forall s ensures OfSeries(sorted + [points[i]], s) == OfSeries(points[..i + 1], s) {
        OfSeriesConcat(sorted, [points[i]], s);
        OfSeriesConcat(points[..i], [points[i]], s);
      }
      sorted := InsertPoint(sorted, points[i]);
      i := i + 1;
    }
    assert points[..i] == points;
  }

  // ---- the raw query -------------------------------------------------------------------------------

  /** The visible part of a raw query: samples older than the retention are never returned. */
  function Visible(q: Query, now: int): Query {
    if q.start < now - RAW_RETENTION then q.(start := now - RAW_RETENTION) else q
  }

  method LabelPoints(s: SeriesKey, entries: seq<Entry>) returns (points: seq<RawPoint>)
    ensures points == Labelled(s, ObserveAll(entries))
  {
    hide Observe;
    points := [];
    var i := 0;
    while i < |entries|
      invariant 0 <= i <= |entries|
      invariant points == Labelled(s, ObserveAll(entries[..i]))
    {
      assert entries[..i + 1][..i] == entries[..i];
      ghost var rest := ObserveAll(entries[..i]);
      assert (rest + [Observe(entries[i])])[..|rest|] == rest;
      points := points + [RawPoint(s, Observe(entries[i]))];
      i := i + 1;
    }
    assert entries[..i] == entries;
  }

  /** A raw query returns series `s` at time `t` with value `x`: the series matches, the time is in range,
      within the last ten minutes and inside the window, and the last word written there says `x`. */
  ghost predicate Returns(query: Query, now: int, windowStart: int, written: seq<Point>, s: SeriesKey, t: int, x: real) {
    && s.metricName == query.metricName && (query.entities == {} || s.entityID in query.entities)
    && query.tagsMatch(s.tagsHash) && query.start <= t <= query.end
    && now - 600_000 <= t && windowStart <= t && LastReal(written, s, t, x)
  }

  ghost predicate ReturnsLatest(points: seq<RawPoint>, query: Query, now: int, windowStart: int, written: seq<Point>) {
    forall s, t, x :: RawPoint(s, Obs(t, x)) in points <==> Returns(query, now, windowStart, written, s, t, x)
  }

  /** Every sample in range of every matching series, sorted by time. */
  method QueryRaw(store: Store, query: Query, now: int) returns (points: seq<RawPoint>)
    requires store.Valid()
    ensures RawQuery(points, store.table.views, Visible(query, now))
    ensures forall i, j :: 0 <= i < j < |points| ==>
              points[i].obs.ts <= points[j].obs.ts
              && (points[i].series == points[j].series ==> points[i].obs.ts < points[j].obs.ts)
    ensures ReturnsLatest(points, query, now, WindowStart(store.history), Written(store.history))
    ensures LastTime(store.history) <= now ==> WindowStart(store.history) <= now - 600_000
  {
    hide AllHold, Matches, Pick, From, Before, Gathered, OfSeries, Same, LegalRun, Run, ReturnsLatest, WindowStart, Written;
    RunOrdered(store.history);
    var table := store.table;
    KeysOf(table.raw, Same(table.raw.Keys, table.cutoff), table.views, table.sizes, table.jsonOf);
    var q := Visible(query, now);
    points := [];
    var left := table.raw.Keys;
    ghost var done := {};
    NothingGathered(table.views, q);
    while left != {}
      invariant table.Valid() && left <= table.raw.Keys && left !! done
      invariant forall s :: s in table.raw && Matches(q, s) ==> s in left || s in done
      invariant Gathered(points, table.views, q, done)
      decreases left
    {
      var s :| s in left;
      assert forall o :: o in Footprint(table.raw) ==> allocated(o);
      if Matches(q, s) {
        var entries := table.SeriesRange(s, q.start, q.end);
        var found := LabelPoints(s, entries);
        GatherSeries(points, table.views, q, done, s, entries);
        points := points + found;
        done := done + {s};
      }
      left := left - {s};
    }
    GatheredAll(points, table.views, q, done);
    points := SortPoints(points);
    AnswerFromHistory(store.history, query, now, points);
  }

  /** What is visible, in terms of what was written. */
  lemma AnswerFromHistory(steps: seq<Step>, query: Query, now: int, points: seq<RawPoint>)
    requires LegalRun(steps) && RawQuery(points, Run(steps).raw, Visible(query, now))
    ensures forall i, j :: 0 <= i < j < |points| ==>
              points[i].obs.ts <= points[j].obs.ts
              && (points[i].series == points[j].series ==> points[i].obs.ts < points[j].obs.ts)
    ensures ReturnsLatest(points, query, now, WindowStart(steps), Written(steps))
    ensures LastTime(steps) <= now ==> WindowStart(steps) <= now - 600_000
  {
    hide LegalRun, Run, WindowStart, OfSeries, Pick, LastReal, LastTime;
    RunOrdered(steps);
    RawAnswerOrdered(Run(steps).raw, Visible(query, now), points);
    PointsDistinct(points);
    forall s, t, x
      ensures RawPoint(s, Obs(t, x)) in points <==> Returns(query, now, WindowStart(steps), Written(steps), s, t, x)
    {
      RawAnswerHolds(steps, Visible(query, now), points, s, t, x);
    }
    if LastTime(steps) <= now {
      WindowReaches(steps, now);
    }
  }

  lemma RunOrdered(steps: seq<Step>)
    requires LegalRun(steps)
    ensures RawOrdered(Run(steps).raw)
  {
    hide LegalRun, Run, Accounts, Latest, From;
    RunGood(steps);
  }

  // ---- the series query ------------------------------------------------------------------------------

  /** What a reader may rely on: whatever raw points are visible, grouping and aggregating
      them directly gives the same groups with the same values. */
  ghost predicate AgreesWithRaw(groups: Groups, q: Query, raw: RawWindow) {
    forall points, g :: RawQuery(points, raw, q) && q.interval > 0 ==> GroupAgrees(groups, q.interval, points, g)
  }

  ghost predicate GroupAgrees(groups: Groups, interval: int, points: seq<RawPoint>, g: GroupKey)
    requires interval > 0
  {
    var members := Members(points, interval, g);
    && (g in groups <==> members != [])
    && (g in groups ==> groups[g].count == |members|)
    && forall agg, v :: g in groups && Aggregates(members, agg, v) ==> Value(groups[g], agg) == v
  }

  /** The minute tier of a series query: rows first, then pending buckets, one accumulator. */
  method SeriesMinute(store: Store, q: Query, preserve: bool)
      returns (groups: Groups, ghost rowsOrder: seq<HotKey>, ghost hotOrder: seq<HotKey>)
    requires store.Valid()
    ensures Enumerates(rowsOrder, RowsVisited(store.Snapshot(), q)) && Enumerates(hotOrder, HotVisited(store.Snapshot(), q))
    ensures groups == if preserve then Answer(store.Snapshot(), q, rowsOrder, hotOrder)
                      else MergedAnswer(store.Snapshot(), q, rowsOrder, hotOrder)
    ensures AllCommitted(store.history) && Aligned(q) && q.start >= WindowStart(store.history) && q.start >= 0
            ==> (if preserve then AgreesWithRaw(groups, q, store.table.views) else MergedWithRaw(groups, q, store.table.views))
                && SinglesExact(groups, q, preserve, Written(store.history))
  {
    hide Visits, FloatOf, BucketStart, OnlyWrite, ConsumeAll, ConsumeFor, LegalRun, Run, AllHold, Enumerates, AgreesWithRaw, MergedWithRaw;
    ghost var st := store.Snapshot();
    var acc := new SeriesAccumulator(q.interval, preserve);
    rowsOrder := acc.Scan(store.rows, set k | k in store.rows && Visits(q, k));
    PreservedIsConsumeAll(map[], rowsOrder, store.rows, q.interval);
    hotOrder := acc.Scan(store.hot, set k | k in store.hot && Visits(q, k) && store.hot[k].count != 0);
    PreservedIsConsumeAll(ConsumeAll(map[], rowsOrder, store.rows, q.interval), hotOrder, store.hot, q.interval);
    groups := acc.groups;
    if AllCommitted(store.history) && Aligned(q) && q.start >= WindowStart(store.history) && q.start >= 0 {
      AnswerAgrees(store.history, q, rowsOrder, hotOrder);
      MergedAnswerAgrees(store.history, q, rowsOrder, hotOrder);
      forall s, t, w | OnlyWrite(Written(store.history), q, preserve, s, t, w)
        ensures var g := GroupKey(if preserve then s else SeriesKey(q.metricName, "", ""), BucketStart(t, q.interval));
                var x := FloatOf(w);
                && g in groups && groups[g].count == 1
                && groups[g].sum == groups[g].min == groups[g].max == groups[g].firstVal == groups[g].lastVal == x
      {
        SingleAnswer(store.history, groups, q, preserve, s, t, w);
      }
    }
  }

  /** The merged answer agrees with every raw query of the same range. */
  ghost predicate MergedWithRaw(answer: Groups, q: Query, raw: RawWindow) {
    forall points, bucket :: RawQuery(points, raw, q) ==> MergedAgrees(answer, q, points, bucket)
  }

  /** A group into which the query puts a single written sample has the real of its word as every
      value, whether the series are kept apart or merged. */
  ghost predicate SinglesExact(groups: Groups, q: Query, preserve: bool, written: seq<Point>)
    requires q.interval > 0
  {
    forall s, t, w :: OnlyWrite(written, q, preserve, s, t, w) ==>
      var g := GroupKey(if preserve then s else SeriesKey(q.metricName, "", ""), BucketStart(t, q.interval));
      var x := FloatOf(w);
      && g in groups && groups[g].count == 1
      && groups[g].sum == groups[g].min == groups[g].max == groups[g].firstVal == groups[g].lastVal == x
  }

  lemma SingleAnswer(steps: seq<Step>, groups: Groups, q: Query, preserve: bool, s: SeriesKey, t: int, w: uint64)
    requires LegalRun(steps) && q.interval > 0 && q.start >= WindowStart(steps)
    requires if preserve then AgreesWithRaw(groups, q, Run(steps).raw) else MergedWithRaw(groups, q, Run(steps).raw)
    requires OnlyWrite(Written(steps), q, preserve, s, t, w)
    ensures var g := GroupKey(if preserve then s else SeriesKey(q.metricName, "", ""), BucketStart(t, q.interval));
            var x := FloatOf(w);
            && g in groups && groups[g].count == 1
            && groups[g].sum == groups[g].min == groups[g].max == groups[g].firstVal == groups[g].lastVal == x
  {
    hide LegalRun, Run, WindowStart, LastWord, FloatOf, OfSeries, Pick, BucketStart, Members, InOutput, Aggregates, Value;
    var x := FloatOf(w);
    RunOrdered(steps);
    var points := AnyRawAnswer(Run(steps).raw, q);
    RawAnswerOrdered(Run(steps).raw, q, points);
    PointsDistinct(points);
    OnlyPoint(steps, points, q, preserve, s, t, w);
    if preserve {
      var g := GroupKey(s, BucketStart(t, q.interval));
      MembersOrdered(Run(steps).raw, points, q, g);
      OnlyMember(points, q.interval, g, Obs(t, x));
      assert GroupAgrees(groups, q.interval, points, g);
      SingleValues(groups[g], Obs(t, x));
    } else {
      var bucket := BucketStart(t, q.interval);
      OnlyOutput(points, q.interval, bucket, RawPoint(s, Obs(t, x)));
      assert MergedAgrees(groups, q, points, bucket);
      SingleValues(groups[AllSeries(q.metricName, bucket)], Obs(t, x));
    }
  }

  lemma SingleValues(b: Summary, o: Obs)
    requires forall agg, v :: TieFree(agg, [o]) && Aggregates([o], agg, v) ==> Value(b, agg) == v
    ensures b.sum == b.min == b.max == b.firstVal == b.lastVal == o.val
  {
    hide Aggregates;
    forall agg: Aggregation | agg.Avg? || agg.Sum? || agg.Min? || agg.Max? || agg.First? || agg.Last?
      ensures TieFree(agg, [o]) && Aggregates([o], agg, o.val)
    {
      OneSample(o, agg);
    }
    assert Value(b, Sum) == o.val && Value(b, Min) == o.val && Value(b, Max) == o.val;
    assert Value(b, First) == o.val && Value(b, Last) == o.val;
  }

  lemma MembersOrdered(raw: RawWindow, points: seq<RawPoint>, q: Query, g: GroupKey)
    requires RawQuery(points, raw, q) && RawOrdered(raw) && q.interval > 0
    ensures TimeOrdered(Members(points, q.interval, g))
  {
    hide Pick, Members;
    MembersPicked(points, raw, q, g);
    RawOrderedAt(raw, g.series);
    PickAscending(SeriesOf(raw, g.series), InGroup(q, g));
  }

  /** The sample is in every raw answer, alone in its group. */
  lemma OnlyPoint(steps: seq<Step>, points: seq<RawPoint>, q: Query, preserve: bool, s: SeriesKey, t: int, w: uint64)
    requires LegalRun(steps) && RawQuery(points, Run(steps).raw, q) && q.interval > 0 && q.start >= WindowStart(steps)
    requires OnlyWrite(Written(steps), q, preserve, s, t, w)
    ensures var p := RawPoint(s, Obs(t, FloatOf(w)));
            && p in points
            && forall k :: 0 <= k < |points| && (preserve ==> points[k].series == s) ==>
                 BucketStart(points[k].obs.ts, q.interval) == BucketStart(t, q.interval) ==> points[k] == p
  {
    hide LegalRun, Run, WindowStart, LastWord, FloatOf, OfSeries, Pick, BucketStart, Sorted;
    var x := FloatOf(w);
    OneLastWord(Written(steps), s, t);
    RawAnswerHolds(steps, q, points, s, t, x);
    forall k | 0 <= k < |points| && (preserve ==> points[k].series == s)
               && BucketStart(points[k].obs.ts, q.interval) == BucketStart(t, q.interval)
      ensures points[k] == RawPoint(s, Obs(t, x))
    {
      var u, o := points[k].series, points[k].obs;
      assert points[k] == RawPoint(u, Obs(o.ts, o.val));
      RawAnswerHolds(steps, q, points, u, o.ts, o.val);
      var v :| LastWord(Written(steps), u, o.ts, v) && FloatOf(v) == o.val;
    }
  }

  lemma MergedAnswerAgrees(steps: seq<Step>, q: Query, rowsOrder: seq<HotKey>, hotOrder: seq<HotKey>)
    requires LegalRun(steps) && AllCommitted(steps)
    requires Aligned(q) && q.start >= WindowStart(steps) && q.start >= 0
    requires Enumerates(rowsOrder, RowsVisited(Run(steps), q)) && Enumerates(hotOrder, HotVisited(Run(steps), q))
    ensures MergedWithRaw(MergedAnswer(Run(steps), q, rowsOrder, hotOrder), q, Run(steps).raw)
  {
    hide LegalRun, Run, MergedAnswer, RawQuery, Enumerates, RowsVisited, HotVisited, MergedAgrees, WindowStart;
    forall points, bucket | RawQuery(points, Run(steps).raw, q)
      ensures MergedAgrees(MergedAnswer(Run(steps), q, rowsOrder, hotOrder), q, points, bucket)
    {
      MergedSeriesEqualsAggregate(steps, q, rowsOrder, hotOrder, points, bucket);
    }
  }

  lemma AnswerAgrees(steps: seq<Step>, q: Query, rowsOrder: seq<HotKey>, hotOrder: seq<HotKey>)
    requires LegalRun(steps) && AllCommitted(steps)
    requires Aligned(q) && q.start >= WindowStart(steps) && q.start >= 0
    requires Enumerates(rowsOrder, RowsVisited(Run(steps), q)) && Enumerates(hotOrder, HotVisited(Run(steps), q))
    ensures AgreesWithRaw(Answer(Run(steps), q, rowsOrder, hotOrder), q, Run(steps).raw)
  {
    hide LegalRun, Run, Answer, RawQuery, Enumerates, RowsVisited, HotVisited, Members, Aggregates, Value, WindowStart;
    forall points, g | RawQuery(points, Run(steps).raw, q)
      ensures GroupAgrees(Answer(Run(steps), q, rowsOrder, hotOrder), q.interval, points, g)
    {
      SeriesEqualsAggregatePoints(steps, q, rowsOrder, hotOrder, points, g);
    }
  }
}
