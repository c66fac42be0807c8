/** The two answers to one query agree: minute rollups streamed from rows and pending
    buckets, and the raw points of the window grouped and aggregated directly. */
module SeriesResult {
  import opened Words
  import opened Clock
  import opened Timeline
  import opened RawSeries
  import opened Selection
  import opened Rollup
  import opened Window
  import opened WindowSteps
  import opened WindowFlush
  import opened WindowRuns
  import opened Aggregate
  import opened SeriesRead

  // ---- the raw side ----------------------------------------------------------------------------

  function OfSeries(points: seq<RawPoint>, s: SeriesKey): seq<Obs> {
    if points == [] then []
    else
      var rest, p := OfSeries(points[..|points| - 1], s), points[|points| - 1];
      if p.series == s then rest + [p.obs] else rest
  }

  /** `points` is the time-sorted answer of a raw query: per series, the samples in range. */
  ghost predicate RawQuery(points: seq<RawPoint>, raw: RawWindow, q: Query) {
    Sorted(points) && forall s :: OfSeries(points, s) == Pick(SeriesOf(raw, s), InRange(q, s))
  }

  function InBucket(s: seq<Obs>, interval: int, bucket: int): seq<Obs> {
    if s == [] then []
    else
      var rest := InBucket(s[..|s| - 1], interval, bucket);
      if BucketStart(s[|s| - 1].ts, interval) == bucket then rest + [s[|s| - 1]] else rest
  }

  lemma {:induction false} MembersOfSeries(points: seq<RawPoint>, interval: int, g: GroupKey)
    requires interval > 0
    ensures Members(points, interval, g) == InBucket(OfSeries(points, g.series), interval, g.bucket)
  {
    hide GroupFor, BucketStart;
    if points != [] {
      var init, p := points[..|points| - 1], points[|points| - 1];
      MembersOfSeries(init, interval, g);
      GroupIsBucket(p, interval);
      var rest := OfSeries(init, g.series);
      assert (rest + [p.obs])[..|rest|] == rest;
    }
  }

  lemma {:induction false} PickInBucket(v: seq<Entry>, q: Query, g: GroupKey)
    ensures InBucket(Pick(v, InRange(q, g.series)), q.interval, g.bucket) == Pick(v, InGroup(q, g))
  {
    hide BucketStart, Observe;
    if v != [] {
      var init, e := v[..|v| - 1], v[|v| - 1];
      PickInBucket(init, q, g);
      var rest := Pick(init, InRange(q, g.series));
      assert (rest + [Observe(e)])[..|rest|] == rest;
      ObserveStamp(e);
      assert InGroup(q, g)(e) == (InRange(q, g.series)(e) && BucketStart(e.timestamp, q.interval) == g.bucket);
    }
  }

  lemma ObserveStamp(e: Entry)
    ensures Observe(e).ts == e.timestamp
  {
  }

  lemma {:induction false} MembersPicked(points: seq<RawPoint>, raw: RawWindow, q: Query, g: GroupKey)
    requires RawQuery(points, raw, q) && q.interval > 0
    ensures Members(points, q.interval, g) == Pick(SeriesOf(raw, g.series), InGroup(q, g))
  {
    MembersOfSeries(points, q.interval, g);
    PickInBucket(SeriesOf(raw, g.series), q, g);
  }

  // ---- the rollup side --------------------------------------------------------------------------

  ghost predicate GroupsNonEmpty(groups: Groups) {
    forall g :: g in groups ==> WellFormed(groups[g]) && groups[g].count > 0
  }

  lemma {:induction false} ConsumedNonEmpty(groups: Groups, order: seq<HotKey>, buckets: Buckets, interval: int)
    requires GroupsNonEmpty(groups)
    requires forall i :: 0 <= i < |order| ==>
               order[i] in buckets && WellFormed(buckets[order[i]]) && buckets[order[i]].count > 0
    ensures GroupsNonEmpty(ConsumeAll(groups, order, buckets, interval))
  {
    hide Merge;
    if order != [] {
      var init, k := order[..|order| - 1], order[|order| - 1];
      ConsumedNonEmpty(groups, init, buckets, interval);
      MergeWellFormed(GroupOf(ConsumeAll(groups, init, buckets, interval), Target(k, interval)), buckets[k]);
    }
  }

  /** In every good state whose visited replacements have no row underneath, a minute-tier
      answer has exactly the groups of the raw answer, and every aggregation of every group
      has the value the raw samples have. */
  lemma AnswerMatchesRaw(st: State, written: seq<Point>, trimmed: int, now: int, q: Query,
                         rowsOrder: seq<HotKey>, hotOrder: seq<HotKey>, points: seq<RawPoint>, g: GroupKey)
    requires Good(st, written, trimmed, now)
    requires Aligned(q) && q.start >= RawCutoff(trimmed) && q.start >= 0
    requires forall k :: Visits(q, k) ==> !(k in st.replace && k in st.rows)
    requires Enumerates(rowsOrder, RowsVisited(st, q)) && Enumerates(hotOrder, HotVisited(st, q))
    requires RawQuery(points, st.raw, q)
    ensures var answer, members := Answer(st, q, rowsOrder, hotOrder), Members(points, q.interval, g);
            && (g in answer <==> members != [])
            && (g in answer ==> answer[g].count == |members|)
            && forall agg, v :: g in answer && Aggregates(members, agg, v) ==> Value(answer[g], agg) == v
  {
    hide Accounts, Pick, Fold, Aggregates, Value, Latest, From, RowsVisited, HotVisited;
    var answer, v := Answer(st, q, rowsOrder, hotOrder), SeriesOf(st.raw, g.series);
    var members := Members(points, q.interval, g);
    RawOrderedAt(st.raw, g.series);
    AnswerExact(st, q, rowsOrder, hotOrder, g);
    MembersPicked(points, st.raw, q, g);
    PickAscending(v, InGroup(q, g));
    VisitedNonEmpty(st, q);
    ConsumedNonEmpty(map[], rowsOrder, st.rows, q.interval);
    ConsumedNonEmpty(ConsumeAll(map[], rowsOrder, st.rows, q.interval), hotOrder, st.hot, q.interval);
    assert GroupOf(answer, g) == Fold(members) && Fold(members).count == |members|;
    forall agg, x | g in answer && Aggregates(members, agg, x) ensures Value(answer[g], agg) == x {
      SummaryAnswers(members, agg);
      AggregatesUnique(members, agg, Value(Fold(members), agg), x);
    }
  }

  lemma VisitedNonEmpty(st: State, q: Query)
    requires AllWellFormed(st.hot) && AllWellFormed(st.rows) && RowsNonEmpty(st.rows)
    ensures forall k :: k in RowsVisited(st, q) ==> k in st.rows && WellFormed(st.rows[k]) && st.rows[k].count > 0
    ensures forall k :: k in HotVisited(st, q) ==> k in st.hot && WellFormed(st.hot[k]) && st.hot[k].count > 0
  {
  }

  /** Main result. After any legal run with successful transactions, an aligned minute-tier
      series query inside the raw window equals aggregating the raw points directly. */
  lemma SeriesEqualsAggregatePoints(steps: seq<Step>, q: Query, rowsOrder: seq<HotKey>, hotOrder: seq<HotKey>,
                                    points: seq<RawPoint>, g: GroupKey)
    requires LegalRun(steps) && AllCommitted(steps)
    requires Aligned(q) && q.start >= WindowStart(steps) && q.start >= 0
    requires Enumerates(rowsOrder, RowsVisited(Run(steps), q)) && Enumerates(hotOrder, HotVisited(Run(steps), q))
    requires RawQuery(points, Run(steps).raw, q)
    ensures var answer, members := Answer(Run(steps), q, rowsOrder, hotOrder), Members(points, q.interval, g);
            && (g in answer <==> members != [])
            && (g in answer ==> answer[g].count == |members|)
            && forall agg, v :: g in answer && Aggregates(members, agg, v) ==> Value(answer[g], agg) == v
  {
    hide Good, RawQuery, Answer, Members, Aggregates, Value;
    RunGood(steps);
    PendingApartFromStored(steps);
    AnswerMatchesRaw(Run(steps), Written(steps), TrimTime(steps), LastTime(steps), q, rowsOrder, hotOrder, points, g);
  }
}
