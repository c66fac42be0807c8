/** Queries that merge all series of a metric into one: the answer is the merge of the answers per
    series, and the aggregate of the raw points of all of them together. */
module SeriesMerged {
  import opened Words
  import opened Clock
  import opened Timeline
  import opened RawSeries
  import opened Selection
  import opened Rollup
  import opened Window
  import opened WindowSteps
  import opened WindowFlush
  import opened WindowRuns
  import opened Aggregate
  import opened SeriesRead
  import opened SeriesResult

  // ---- merging in any order, up to ties ------------------------------------------------------------

  lemma TiesMerge(a: Summary, a': Summary, b: Summary)
    requires WellFormed(a) && WellFormed(a') && WellFormed(b) && SameUpToTies(a, a')
    ensures SameUpToTies(Merge(a, b), Merge(a', b)) && SameUpToTies(Merge(a, b), Merge(b, a))
  {
  }

  ghost predicate NoRepeats(gs: seq<GroupKey>) {
    forall i, j :: 0 <= i < j < |gs| ==> gs[i] != gs[j]
  }

  ghost predicate GroupsWellFormed(groups: Groups) {
    forall g :: g in groups ==> WellFormed(groups[g])
  }

  /** The listed groups merged one by one. */
  function MergeOver(gs: seq<GroupKey>, groups: Groups): Summary {
    if gs == [] then EMPTY else Merge(MergeOver(gs[..|gs| - 1], groups), GroupOf(groups, gs[|gs| - 1]))
  }

  lemma {:induction false} MergeOverWellFormed(gs: seq<GroupKey>, groups: Groups)
    requires GroupsWellFormed(groups)
    ensures WellFormed(MergeOver(gs, groups))
  {
    hide Merge;
    if gs != [] {
      MergeOverWellFormed(gs[..|gs| - 1], groups);
      MergeWellFormed(MergeOver(gs[..|gs| - 1], groups), GroupOf(groups, gs[|gs| - 1]));
    }
  }

  lemma {:induction false} MergeOverSame(gs: seq<GroupKey>, a: Groups, b: Groups)
    requires forall i :: 0 <= i < |gs| ==> GroupOf(a, gs[i]) == GroupOf(b, gs[i])
    ensures MergeOver(gs, a) == MergeOver(gs, b)
  {
    hide Merge, GroupOf;
    if gs != [] {
      MergeOverSame(gs[..|gs| - 1], a, b);
    }
  }

  /** Merging into one of the groups is merging into the merge of them all. */
  lemma {:induction false} MergeOverUpdate(gs: seq<GroupKey>, groups: Groups, g: GroupKey, b: Summary)
    requires NoRepeats(gs) && g in gs && GroupsWellFormed(groups) && WellFormed(b)
    ensures var after := groups[g := Merge(GroupOf(groups, g), b)];
            SameUpToTies(MergeOver(gs, after), Merge(MergeOver(gs, groups), b))
  {
    hide Merge, SameUpToTies, WellFormed;
    var after := groups[g := Merge(GroupOf(groups, g), b)];
    var init, last := gs[..|gs| - 1], gs[|gs| - 1];
    var m, x := MergeOver(init, groups), GroupOf(groups, last);
    EmptyWellFormed();
    MergeOverWellFormed(init, groups);
    MergeWellFormed(GroupOf(groups, g), b);
    MergeWellFormed(m, b);
    MergeWellFormed(m, x);
    if last == g {
      forall i | 0 <= i < |init| ensures GroupOf(after, init[i]) == GroupOf(groups, init[i]) {
        assert init[i] == gs[i] != g;
      }
      MergeOverSame(init, groups, after);
      MergeAssociative(m, x, b);
      TiesSame(MergeOver(gs, after));
    } else {
      assert g in init by { assert gs == init + [last]; }
      MergeOverUpdate(init, groups, g, b);
      MergeOverWellFormed(init, after);
      SwapLast(MergeOver(init, after), m, x, b);
    }
  }

  lemma EmptyWellFormed()
    ensures WellFormed(EMPTY)
  {
  }

  lemma TiesSame(a: Summary)
    ensures SameUpToTies(a, a)
  {
  }

  lemma SwapLast(after: Summary, m: Summary, x: Summary, b: Summary)
    requires WellFormed(after) && WellFormed(m) && WellFormed(x) && WellFormed(b)
    requires SameUpToTies(after, Merge(m, b))
    ensures SameUpToTies(Merge(after, x), Merge(Merge(m, x), b))
  {
    hide Merge, SameUpToTies, WellFormed;
    MergeWellFormed(m, b);
    TiesMerge(after, Merge(m, b), x);
    MergeAssociative(m, b, x);
    MergeAssociative(m, x, b);
    MergesUpToTies(m, b, x);
    TiesChain(Merge(after, x), Merge(Merge(m, b), x), Merge(Merge(m, x), b));
  }

  lemma TiesChain(a: Summary, b: Summary, c: Summary)
    requires SameUpToTies(a, b) && SameUpToTies(b, c)
    ensures SameUpToTies(a, c)
  {
  }

  // ---- streaming side by side ----------------------------------------------------------------------

  /** The group of all series of a metric. */
  function AllSeries(metricName: string, bucket: int): GroupKey {
    GroupKey(SeriesKey(metricName, "", ""), bucket)
  }

  /** The merged group stands for the listed groups of the answer per series. */
  ghost predicate InStep(groups: Groups, merged: Groups, gs: seq<GroupKey>, g: GroupKey) {
    GroupsWellFormed(groups) && GroupsWellFormed(merged) && SameUpToTies(GroupOf(merged, g), MergeOver(gs, groups))
  }

  /** Every source bucket of output bucket `bucket` belongs to a listed group. */
  ghost predicate Covers(gs: seq<GroupKey>, order: seq<HotKey>, interval: int, metricName: string, bucket: int) {
    && NoRepeats(gs) && (forall i :: 0 <= i < |gs| ==> gs[i].bucket == bucket)
    && forall i :: 0 <= i < |order| ==>
         order[i].series.metricName == metricName
         && (BucketStart(order[i].bucket, interval) == bucket ==> Target(order[i], interval) in gs)
  }

  lemma {:induction false} StreamedTogether(groups: Groups, merged: Groups, order: seq<HotKey>, buckets: Buckets,
                                            interval: int, gs: seq<GroupKey>, metricName: string, bucket: int)
    requires Covers(gs, order, interval, metricName, bucket) && AllWellFormed(buckets)
    requires InStep(groups, merged, gs, AllSeries(metricName, bucket))
    ensures InStep(ConsumeAll(groups, order, buckets, interval), ConsumeFor(merged, order, buckets, interval, false), gs,
                   AllSeries(metricName, bucket))
  {
    hide Merge, SameUpToTies, WellFormed, BucketStart, MergeOver;
    if order != [] {
      var init, k := order[..|order| - 1], order[|order| - 1];
      StreamedTogether(groups, merged, init, buckets, interval, gs, metricName, bucket);
      EmptyWellFormed();
      OneTogether(ConsumeAll(groups, init, buckets, interval), ConsumeFor(merged, init, buckets, interval, false), k,
                  BucketOf(buckets, k), interval, gs, metricName, bucket);
    }
  }

  lemma OneTogether(groups: Groups, merged: Groups, k: HotKey, b: Summary, interval: int, gs: seq<GroupKey>,
                    metricName: string, bucket: int)
    requires NoRepeats(gs) && (forall i :: 0 <= i < |gs| ==> gs[i].bucket == bucket) && k.series.metricName == metricName
    requires BucketStart(k.bucket, interval) == bucket ==> Target(k, interval) in gs
    requires InStep(groups, merged, gs, AllSeries(metricName, bucket)) && WellFormed(b)
    ensures var t := TargetFor(k, interval, false);
            InStep(ConsumeOne(groups, k, b, interval), merged[t := Merge(GroupOf(merged, t), b)], gs, AllSeries(metricName, bucket))
  {
    hide Merge, SameUpToTies, WellFormed, BucketStart, MergeOver, NoRepeats;
    var g, t, all := Target(k, interval), TargetFor(k, interval, false), AllSeries(metricName, bucket);
    EmptyWellFormed();
    MergeWellFormed(GroupOf(groups, g), b);
    MergeWellFormed(GroupOf(merged, t), b);
    if BucketStart(k.bucket, interval) == bucket {
      MergeOverWellFormed(gs, groups);
      MergeOverUpdate(gs, groups, g, b);
      MergeWellFormed(MergeOver(gs, groups), b);
      TiesMerge(GroupOf(merged, all), MergeOver(gs, groups), b);
      TiesBack(MergeOver(gs, ConsumeOne(groups, k, b, interval)), Merge(MergeOver(gs, groups), b));
      TiesChain(Merge(GroupOf(merged, all), b), Merge(MergeOver(gs, groups), b), MergeOver(gs, ConsumeOne(groups, k, b, interval)));
    } else {
      MergeOverSame(gs, groups, ConsumeOne(groups, k, b, interval));
    }
  }

  lemma TiesBack(a: Summary, b: Summary)
    requires SameUpToTies(a, b)
    ensures SameUpToTies(b, a)
  {
  }

  // ---- the raw points of all series ----------------------------------------------------------------

  /** The points of one output bucket, whatever their series, in the order given. */
  function InOutput(points: seq<RawPoint>, interval: int, bucket: int): seq<Obs> {
    if points == [] then []
    else
      var rest, p := InOutput(points[..|points| - 1], interval, bucket), points[|points| - 1];
      if BucketStart(p.obs.ts, interval) == bucket then rest + [p.obs] else rest
  }

  function PointGroups(points: seq<RawPoint>, interval: int): Groups {
    if points == [] then map[]
    else
      var rest, p := PointGroups(points[..|points| - 1], interval), points[|points| - 1];
      var g := GroupKey(p.series, BucketStart(p.obs.ts, interval));
      rest[g := Merge(GroupOf(rest, g), Single(p.obs))]
  }

  lemma {:induction false} PointGroupsMembers(points: seq<RawPoint>, interval: int, g: GroupKey)
    requires interval > 0
    ensures GroupOf(PointGroups(points, interval), g) == Fold(Members(points, interval, g))
  {
    hide Merge, AddPoint, GroupFor, BucketStart, Single;
    if points == [] {
      FoldEmpty();
    } else {
      var init, p := points[..|points| - 1], points[|points| - 1];
      PointGroupsMembers(init, interval, g);
      GroupIsBucket(p, interval);
      FoldPush(Members(init, interval, g), p.obs);
    }
  }

  lemma FoldPush(s: seq<Obs>, o: Obs)
    ensures Fold(s + [o]) == Merge(Fold(s), Single(o))
  {
    hide Merge, AddPoint, Single;
    assert (s + [o])[..|s|] == s;
    FoldUnfolds(s + [o]);
    AddPointIsMerge(Fold(s), o);
  }

  lemma SingleWellFormed(o: Obs)
    ensures WellFormed(Single(o))
  {
  }

  lemma {:induction false} PointGroupsWellFormed(points: seq<RawPoint>, interval: int)
    ensures GroupsWellFormed(PointGroups(points, interval))
  {
    hide Merge, Single, WellFormed, BucketStart;
    if points != [] {
      var init, p := points[..|points| - 1], points[|points| - 1];
      PointGroupsWellFormed(init, interval);
      EmptyWellFormed();
      SingleWellFormed(p.obs);
      MergeWellFormed(GroupOf(PointGroups(init, interval), GroupKey(p.series, BucketStart(p.obs.ts, interval))), Single(p.obs));
    }
  }

  /** Folding the interleaved points is folding each series apart and merging. */
  lemma {:induction false} FoldIsMergeOver(points: seq<RawPoint>, interval: int, gs: seq<GroupKey>, bucket: int)
    requires NoRepeats(gs) && forall i :: 0 <= i < |gs| ==> gs[i].bucket == bucket
    requires forall i :: 0 <= i < |points| && BucketStart(points[i].obs.ts, interval) == bucket ==>
               GroupKey(points[i].series, bucket) in gs
    ensures SameUpToTies(Fold(InOutput(points, interval, bucket)), MergeOver(gs, PointGroups(points, interval)))
  {
    hide Merge, Single, WellFormed, BucketStart, SameUpToTies, NoRepeats, Fold, MergeOver;
    if points == [] {
      FoldEmpty();
      MergeOverNothing(gs);
      TiesSame(EMPTY);
    } else {
      var init, p := points[..|points| - 1], points[|points| - 1];
      FoldIsMergeOver(init, interval, gs, bucket);
      PointGroupsWellFormed(init, interval);
      SingleWellFormed(p.obs);
      var g, groups := GroupKey(p.series, BucketStart(p.obs.ts, interval)), PointGroups(init, interval);
      if g.bucket == bucket {
        FoldPush(InOutput(init, interval, bucket), p.obs);
        MergeOverWellFormed(gs, groups);
        MergeOverUpdate(gs, groups, g, Single(p.obs));
        MergeWellFormed(MergeOver(gs, groups), Single(p.obs));
        var folded, over := Fold(InOutput(init, interval, bucket)), MergeOver(gs, groups);
        TiesMerge(folded, over, Single(p.obs));
        TiesBack(MergeOver(gs, PointGroups(points, interval)), Merge(over, Single(p.obs)));
        TiesChain(Merge(folded, Single(p.obs)), Merge(over, Single(p.obs)), MergeOver(gs, PointGroups(points, interval)));
      } else {
        MergeOverSame(gs, groups, PointGroups(points, interval));
      }
    }
  }

  lemma {:induction false} MergeOverNothing(gs: seq<GroupKey>)
    ensures MergeOver(gs, map[]) == EMPTY
  {
    hide Merge;
    if gs != [] {
      MergeOverNothing(gs[..|gs| - 1]);
      EmptyWellFormed();
      MergeUnit(EMPTY);
    }
  }

  // ---- first and last ------------------------------------------------------------------------------

  /** First and last value are those of samples with the first and last timestamp. */
  ghost predicate EndsIn(b: Summary, s: seq<Obs>) {
    b.count > 0 ==> Obs(b.firstTS, b.firstVal) in s && Obs(b.lastTS, b.lastVal) in s
  }

  lemma EndsMerge(a: Summary, b: Summary, s: seq<Obs>)
    requires EndsIn(a, s) && EndsIn(b, s) && a.count >= 0 && b.count >= 0
    ensures EndsIn(Merge(a, b), s) && Merge(a, b).count >= 0
  {
  }

  /** What every source bucket of one output bucket knows ends in the samples of that output. */
  ghost predicate EndsCovered(order: seq<HotKey>, buckets: Buckets, interval: int, bucket: int, s: seq<Obs>) {
    forall i :: 0 <= i < |order| && BucketStart(order[i].bucket, interval) == bucket ==>
      EndsIn(BucketOf(buckets, order[i]), s) && BucketOf(buckets, order[i]).count >= 0
  }

  lemma {:induction false} MergedEnds(merged: Groups, order: seq<HotKey>, buckets: Buckets, interval: int,
                                      metricName: string, bucket: int, s: seq<Obs>)
    requires EndsCovered(order, buckets, interval, bucket, s)
    requires EndsIn(GroupOf(merged, AllSeries(metricName, bucket)), s) && GroupOf(merged, AllSeries(metricName, bucket)).count >= 0
    ensures var b := GroupOf(ConsumeFor(merged, order, buckets, interval, false), AllSeries(metricName, bucket));
            EndsIn(b, s) && b.count >= 0
  {
    hide Merge, EndsIn, BucketStart;
    if order != [] {
      var init, k := order[..|order| - 1], order[|order| - 1];
      MergedEnds(merged, init, buckets, interval, metricName, bucket, s);
      if BucketStart(k.bucket, interval) == bucket {
        EndsMerge(GroupOf(ConsumeFor(merged, init, buckets, interval, false), AllSeries(metricName, bucket)),
                  BucketOf(buckets, k), s);
      }
    }
  }

  lemma {:induction false} PickContains(v: seq<Entry>, p: Entry -> bool, i: int)
    requires 0 <= i < |v| && p(v[i])
    ensures Observe(v[i]) in Pick(v, p)
  {
    hide Observe;
    if i < |v| - 1 {
      PickContains(v[..|v| - 1], p, i);
    }
  }

  lemma {:induction false} OutputContains(points: seq<RawPoint>, s: SeriesKey, o: Obs, interval: int)
    requires o in OfSeries(points, s)
    ensures o in InOutput(points, interval, BucketStart(o.ts, interval))
  {
    hide BucketStart;
    var init, p := points[..|points| - 1], points[|points| - 1];
    if o in OfSeries(init, s) {
      OutputContains(init, s, o, interval);
    }
  }

  /** The samples behind a visited source bucket are among the raw points of its output bucket. */
  lemma SourceEnds(st: State, q: Query, points: seq<RawPoint>, k: HotKey, fromRows: bool)
    requires RawOrdered(st.raw) && Aligned(q) && Visits(q, k) && RawQuery(points, st.raw, q)
    ensures EndsIn(Summarize(SeriesOf(st.raw, k.series), Source(st, k, fromRows)),
                   InOutput(points, q.interval, BucketStart(k.bucket, q.interval)))
  {
    hide Fold, Pick, FromRow, InOutput, OfSeries, Sorted;
    var v, p := SeriesOf(st.raw, k.series), Source(st, k, fromRows);
    var s := Pick(v, p);
    RawOrderedAt(st.raw, k.series);
    PickAscending(v, p);
    PickMembers(v, p);
    forall i | 0 <= i < |s| ensures s[i] in InOutput(points, q.interval, BucketStart(k.bucket, q.interval)) {
      assert Comes(s[i], v, p);
      var j :| 0 <= j < |v| && p(v[j]) && s[i] == Observe(v[j]);
      SampleInOutput(st, q, points, k, j);
    }
    if s != [] {
      FoldEnds(s);
      assert s[0] in s && s[|s| - 1] in s;
    } else {
      FoldEmpty();
    }
  }

  lemma SampleInOutput(st: State, q: Query, points: seq<RawPoint>, k: HotKey, j: int)
    requires Aligned(q) && Visits(q, k) && RawQuery(points, st.raw, q)
    requires 0 <= j < |SeriesOf(st.raw, k.series)| && InKey(k)(SeriesOf(st.raw, k.series)[j])
    ensures Observe(SeriesOf(st.raw, k.series)[j]) in InOutput(points, q.interval, BucketStart(k.bucket, q.interval))
  {
    hide Pick, InOutput, OfSeries, Sorted, FloatOf, Matches, BucketStart;
    var v := SeriesOf(st.raw, k.series);
    MinuteInRange(q, v[j].timestamp);
    VisitMatches(q, k);
    assert InRange(q, k.series)(v[j]);
    PickContains(v, InRange(q, k.series), j);
    OutputContains(points, k.series, Observe(v[j]), q.interval);
    BucketNested(v[j].timestamp, MINUTE, q.interval);
  }

  lemma VisitMatches(q: Query, k: HotKey)
    requires Visits(q, k)
    ensures Matches(q, k.series) && BucketStart(q.start, MINUTE) <= k.bucket <= q.end && k.series.metricName == q.metricName
  {
  }

  // ---- the merged answer ---------------------------------------------------------------------------

  function MergedAnswer(st: State, q: Query, rowsOrder: seq<HotKey>, hotOrder: seq<HotKey>): Groups {
    ConsumeFor(ConsumeFor(map[], rowsOrder, st.rows, q.interval, false), hotOrder, st.hot, q.interval, false)
  }

  lemma {:induction false} ConsumedKeys(groups: Groups, order: seq<HotKey>, buckets: Buckets, interval: int)
    ensures groups.Keys <= ConsumeAll(groups, order, buckets, interval).Keys
    ensures forall i :: 0 <= i < |order| ==> Target(order[i], interval) in ConsumeAll(groups, order, buckets, interval)
  {
    hide Merge;
    if order != [] {
      ConsumedKeys(groups, order[..|order| - 1], buckets, interval);
    }
  }

  lemma EnumerateGroups(all: set<GroupKey>) returns (gs: seq<GroupKey>)
    ensures NoRepeats(gs) && forall g :: g in gs <==> g in all
  {
    gs := [];
    var left := all;
    while left != {}
      invariant left <= all && NoRepeats(gs) && forall g :: g in gs <==> g in all && g !in left
      decreases left
    {
      var g :| g in left;
      gs := gs + [g];
      left := left - {g};
    }
  }

  /** The groups of one output bucket, listed; they cover both streams and the raw points. */
  lemma ListOutput(st: State, q: Query, rowsOrder: seq<HotKey>, hotOrder: seq<HotKey>, points: seq<RawPoint>, bucket: int)
      returns (gs: seq<GroupKey>)
    requires forall i :: 0 <= i < |rowsOrder| ==> Visits(q, rowsOrder[i])
    requires forall i :: 0 <= i < |hotOrder| ==> Visits(q, hotOrder[i])
    requires q.interval > 0
    requires forall g :: Members(points, q.interval, g) != [] ==> g in Answer(st, q, rowsOrder, hotOrder)
    ensures Covers(gs, rowsOrder, q.interval, q.metricName, bucket) && Covers(gs, hotOrder, q.interval, q.metricName, bucket)
    ensures forall i :: 0 <= i < |points| && BucketStart(points[i].obs.ts, q.interval) == bucket ==>
              GroupKey(points[i].series, bucket) in gs
  {
    hide Visits, BucketStart, ConsumeAll, NoRepeats, Members;
    var answer := Answer(st, q, rowsOrder, hotOrder);
    gs := EnumerateGroups(set g | g in answer && g.bucket == bucket);
    ConsumedKeys(map[], rowsOrder, st.rows, q.interval);
    ConsumedKeys(ConsumeAll(map[], rowsOrder, st.rows, q.interval), hotOrder, st.hot, q.interval);
    forall i | 0 <= i < |gs| ensures gs[i].bucket == bucket { assert gs[i] in gs; }
    forall i | 0 <= i < |rowsOrder| ensures rowsOrder[i].series.metricName == q.metricName { VisitMatches(q, rowsOrder[i]); }
    forall i | 0 <= i < |hotOrder| ensures hotOrder[i].series.metricName == q.metricName { VisitMatches(q, hotOrder[i]); }
    forall i | 0 <= i < |points| && BucketStart(points[i].obs.ts, q.interval) == bucket
      ensures GroupKey(points[i].series, bucket) in gs
    {
      PointIsMember(points, q.interval, i);
    }
  }

  lemma {:induction false} PointIsMember(points: seq<RawPoint>, interval: int, i: int)
    requires interval > 0 && 0 <= i < |points|
    ensures Members(points, interval, GroupKey(points[i].series, BucketStart(points[i].obs.ts, interval))) != []
  {
    hide GroupFor, BucketStart;
    GroupIsBucket(points[i], interval);
    if i < |points| - 1 {
      PointIsMember(points[..|points| - 1], interval, i);
    }
  }

  /** The merged group is the aggregate of the raw points of all matching series: exactly, but for
      which of the samples tied at the first or the last timestamp gives its value. */
  lemma MergedGroupIsRaw(st: State, written: seq<Point>, trimmed: int, now: int, q: Query,
                         rowsOrder: seq<HotKey>, hotOrder: seq<HotKey>, points: seq<RawPoint>, bucket: int)
    requires Good(st, written, trimmed, now)
    requires Aligned(q) && q.start >= RawCutoff(trimmed) && q.start >= 0
    requires forall k :: Visits(q, k) ==> !(k in st.replace && k in st.rows)
    requires Enumerates(rowsOrder, RowsVisited(st, q)) && Enumerates(hotOrder, HotVisited(st, q))
    requires RawQuery(points, st.raw, q)
    ensures var group, raw := GroupOf(MergedAnswer(st, q, rowsOrder, hotOrder), AllSeries(q.metricName, bucket)),
                              InOutput(points, q.interval, bucket);
            SameUpToTies(group, Fold(raw)) && EndsIn(group, raw)
  {
    hide Accounts, Pick, Fold, Aggregates, Value, Latest, From, Merge, WellFormed, SameUpToTies, EndsIn, Visits, BucketStart,
         MergeOver, Members, ConsumeAll, ConsumeFor, InOutput;
    OrdersVisit(st, q, rowsOrder, hotOrder);
    forall g ensures Members(points, q.interval, g) != [] ==> g in Answer(st, q, rowsOrder, hotOrder) {
      AnswerMatchesRaw(st, written, trimmed, now, q, rowsOrder, hotOrder, points, g);
    }
    var gs := ListOutput(st, q, rowsOrder, hotOrder, points, bucket);
    MergedIsMergeOver(st, q, rowsOrder, hotOrder, gs, bucket);
    RawIsMergeOver(st, q, rowsOrder, hotOrder, points, gs, bucket);
    TiesBack(Fold(InOutput(points, q.interval, bucket)), MergeOver(gs, Answer(st, q, rowsOrder, hotOrder)));
    TiesChain(GroupOf(MergedAnswer(st, q, rowsOrder, hotOrder), AllSeries(q.metricName, bucket)),
              MergeOver(gs, Answer(st, q, rowsOrder, hotOrder)), Fold(InOutput(points, q.interval, bucket)));
    MergedEndsInRaw(st, q, rowsOrder, hotOrder, points, bucket);
  }

  lemma OrdersVisit(st: State, q: Query, rowsOrder: seq<HotKey>, hotOrder: seq<HotKey>)
    requires Enumerates(rowsOrder, RowsVisited(st, q)) && Enumerates(hotOrder, HotVisited(st, q))
    ensures forall i :: 0 <= i < |rowsOrder| ==> Visits(q, rowsOrder[i]) && rowsOrder[i] in st.rows
    ensures forall i :: 0 <= i < |hotOrder| ==> Visits(q, hotOrder[i]) && hotOrder[i] in st.hot
  {
    hide Visits;
  }

  lemma MergedIsMergeOver(st: State, q: Query, rowsOrder: seq<HotKey>, hotOrder: seq<HotKey>, gs: seq<GroupKey>, bucket: int)
    requires AllWellFormed(st.rows) && AllWellFormed(st.hot)
    requires Covers(gs, rowsOrder, q.interval, q.metricName, bucket) && Covers(gs, hotOrder, q.interval, q.metricName, bucket)
    ensures SameUpToTies(GroupOf(MergedAnswer(st, q, rowsOrder, hotOrder), AllSeries(q.metricName, bucket)),
                         MergeOver(gs, Answer(st, q, rowsOrder, hotOrder)))
  {
    hide WellFormed, SameUpToTies, Covers, MergeOver, ConsumeAll, ConsumeFor;
    MergeOverNothing(gs);
    TiesSame(EMPTY);
    StreamedTogether(map[], map[], rowsOrder, st.rows, q.interval, gs, q.metricName, bucket);
    StreamedTogether(ConsumeAll(map[], rowsOrder, st.rows, q.interval), ConsumeFor(map[], rowsOrder, st.rows, q.interval, false),
                     hotOrder, st.hot, q.interval, gs, q.metricName, bucket);
  }

  lemma RawIsMergeOver(st: State, q: Query, rowsOrder: seq<HotKey>, hotOrder: seq<HotKey>, points: seq<RawPoint>,
                       gs: seq<GroupKey>, bucket: int)
    requires RawOrdered(st.raw) && Aligned(q) && RowsNonEmpty(st.rows) && RawQuery(points, st.raw, q)
    requires forall k: HotKey :: k.bucket >= q.start ==> Accounts(st, k)
    requires forall k :: Visits(q, k) ==> !(k in st.replace && k in st.rows)
    requires Enumerates(rowsOrder, RowsVisited(st, q)) && Enumerates(hotOrder, HotVisited(st, q))
    requires NoRepeats(gs) && forall i :: 0 <= i < |gs| ==> gs[i].bucket == bucket
    requires forall i :: 0 <= i < |points| && BucketStart(points[i].obs.ts, q.interval) == bucket ==>
               GroupKey(points[i].series, bucket) in gs
    ensures SameUpToTies(Fold(InOutput(points, q.interval, bucket)), MergeOver(gs, Answer(st, q, rowsOrder, hotOrder)))
  {
    hide Accounts, Pick, Fold, Answer, Members, MergeOver, PointGroups, InOutput, SameUpToTies, Visits, BucketStart, NoRepeats,
         RawQuery, RowsVisited, HotVisited, Enumerates;
    FoldIsMergeOver(points, q.interval, gs, bucket);
    forall i | 0 <= i < |gs|
      ensures GroupOf(PointGroups(points, q.interval), gs[i]) == GroupOf(Answer(st, q, rowsOrder, hotOrder), gs[i])
    {
      PointGroupsMembers(points, q.interval, gs[i]);
      MembersPicked(points, st.raw, q, gs[i]);
      AnswerExact(st, q, rowsOrder, hotOrder, gs[i]);
    }
    MergeOverSame(gs, PointGroups(points, q.interval), Answer(st, q, rowsOrder, hotOrder));
  }

  lemma MergedEndsInRaw(st: State, q: Query, rowsOrder: seq<HotKey>, hotOrder: seq<HotKey>, points: seq<RawPoint>, bucket: int)
    requires RawOrdered(st.raw) && Aligned(q) && RawQuery(points, st.raw, q)
    requires AllWellFormed(st.rows) && AllWellFormed(st.hot)
    requires forall k: HotKey :: k.bucket >= q.start ==> Accounts(st, k)
    requires forall k :: Visits(q, k) ==> !(k in st.replace && k in st.rows)
    requires forall i :: 0 <= i < |rowsOrder| ==> Visits(q, rowsOrder[i]) && rowsOrder[i] in st.rows
    requires forall i :: 0 <= i < |hotOrder| ==> Visits(q, hotOrder[i]) && hotOrder[i] in st.hot
    ensures EndsIn(GroupOf(MergedAnswer(st, q, rowsOrder, hotOrder), AllSeries(q.metricName, bucket)),
                   InOutput(points, q.interval, bucket))
  {
    hide Accounts, Pick, Fold, InOutput, RawQuery, BucketStart, Visits, SourceExact, ConsumeFor;
    var raw := InOutput(points, q.interval, bucket);
    forall i | 0 <= i < |rowsOrder| && BucketStart(rowsOrder[i].bucket, q.interval) == bucket
      ensures EndsIn(BucketOf(st.rows, rowsOrder[i]), raw) && BucketOf(st.rows, rowsOrder[i]).count >= 0
    {
      VisitedEnds(st, q, points, rowsOrder[i]);
    }
    forall i | 0 <= i < |hotOrder| && BucketStart(hotOrder[i].bucket, q.interval) == bucket
      ensures EndsIn(BucketOf(st.hot, hotOrder[i]), raw) && BucketOf(st.hot, hotOrder[i]).count >= 0
    {
      VisitedEnds(st, q, points, hotOrder[i]);
    }
    MergedEnds(map[], rowsOrder, st.rows, q.interval, q.metricName, bucket, raw);
    MergedEnds(ConsumeFor(map[], rowsOrder, st.rows, q.interval, false), hotOrder, st.hot, q.interval, q.metricName, bucket, raw);
  }

  lemma VisitedEnds(st: State, q: Query, points: seq<RawPoint>, k: HotKey)
    requires RawOrdered(st.raw) && Aligned(q) && RawQuery(points, st.raw, q) && Visits(q, k)
    requires forall x: HotKey :: x.bucket >= q.start ==> Accounts(st, x)
    requires !(k in st.replace && k in st.rows)
    ensures var raw := InOutput(points, q.interval, BucketStart(k.bucket, q.interval));
            && (k in st.rows ==> EndsIn(st.rows[k], raw)) && (k in st.hot ==> EndsIn(st.hot[k], raw))
  {
    hide Accounts, Pick, Fold, InOutput, RawQuery, EndsIn, Visits, Matches;
    VisitMatches(q, k);
    MultipleUnique(BucketStart(q.start, MINUTE), q.start, MINUTE);
    AccountsSources(st, k);
    SourceEnds(st, q, points, k, true);
    SourceEnds(st, q, points, k, false);
  }

  // ---- main results ----------------------------------------------------------------------------------

  /** First and last depend on how ties between series are broken; nothing else does. */
  predicate TieFree(agg: Aggregation, s: seq<Obs>) {
    (agg.First? || agg.Last?) ==> TimeOrdered(s)
  }

  /** A group that agrees with the fold of its samples up to ties has their aggregations. */
  lemma AggregatesUpToTies(b: Summary, s: seq<Obs>, agg: Aggregation, v: real)
    requires s != [] && SameUpToTies(b, Fold(s)) && EndsIn(b, s) && TieFree(agg, s) && Aggregates(s, agg, v)
    ensures Value(b, agg) == v
  {
    hide Fold, Aggregates, MomentVariance;
    SummaryAnswers(s, agg);
    AggregatesUnique(s, agg, Value(Fold(s), agg), v);
    if TimeOrdered(s) {
      FoldEnds(s);
      OnlyOneAt(s, Obs(b.firstTS, b.firstVal), s[0]);
      OnlyOneAt(s, Obs(b.lastTS, b.lastVal), s[|s| - 1]);
    }
  }

  lemma OnlyOneAt(s: seq<Obs>, a: Obs, b: Obs)
    requires TimeOrdered(s) && a in s && b in s && a.ts == b.ts
    ensures a == b
  {
    var i :| 0 <= i < |s| && s[i] == a;
    var j :| 0 <= j < |s| && s[j] == b;
  }

  lemma {:induction false} ConsumedForNonEmpty(groups: Groups, order: seq<HotKey>, buckets: Buckets, interval: int, preserve: bool)
    requires GroupsNonEmpty(groups)
    requires forall i :: 0 <= i < |order| ==>
               order[i] in buckets && WellFormed(buckets[order[i]]) && buckets[order[i]].count > 0
    ensures GroupsNonEmpty(ConsumeFor(groups, order, buckets, interval, preserve))
  {
    hide Merge, WellFormed;
    if order != [] {
      var init, k := order[..|order| - 1], order[|order| - 1];
      ConsumedForNonEmpty(groups, init, buckets, interval, preserve);
      EmptyWellFormed();
      MergeWellFormed(GroupOf(ConsumeFor(groups, init, buckets, interval, preserve), TargetFor(k, interval, preserve)), buckets[k]);
    }
  }

  /** What a query that merges its series answers for one output bucket, compared with the raw points. */
  ghost predicate MergedAgrees(answer: Groups, q: Query, points: seq<RawPoint>, bucket: int) {
    var g, raw := AllSeries(q.metricName, bucket), InOutput(points, q.interval, bucket);
    && (g in answer <==> raw != [])
    && (g in answer ==> answer[g].count == |raw|)
    && forall agg, v :: g in answer && TieFree(agg, raw) && Aggregates(raw, agg, v) ==> Value(answer[g], agg) == v
  }

  lemma MergedMatchesRaw(st: State, written: seq<Point>, trimmed: int, now: int, q: Query,
                         rowsOrder: seq<HotKey>, hotOrder: seq<HotKey>, points: seq<RawPoint>, bucket: int)
    requires Good(st, written, trimmed, now)
    requires Aligned(q) && q.start >= RawCutoff(trimmed) && q.start >= 0
    requires forall k :: Visits(q, k) ==> !(k in st.replace && k in st.rows)
    requires Enumerates(rowsOrder, RowsVisited(st, q)) && Enumerates(hotOrder, HotVisited(st, q))
    requires RawQuery(points, st.raw, q)
    ensures MergedAgrees(MergedAnswer(st, q, rowsOrder, hotOrder), q, points, bucket)
  {
    hide Accounts, Fold, Aggregates, Value, Latest, From, Visits, RawQuery, InOutput, ConsumeFor, RowsVisited, HotVisited, TieFree;
    var answer, raw := MergedAnswer(st, q, rowsOrder, hotOrder), InOutput(points, q.interval, bucket);
    var g := AllSeries(q.metricName, bucket);
    MergedGroupIsRaw(st, written, trimmed, now, q, rowsOrder, hotOrder, points, bucket);
    VisitedNonEmpty(st, q);
    ConsumedForNonEmpty(map[], rowsOrder, st.rows, q.interval, false);
    ConsumedForNonEmpty(ConsumeFor(map[], rowsOrder, st.rows, q.interval, false), hotOrder, st.hot, q.interval, false);
    assert Fold(raw).count == |raw|;
    forall agg, v | g in answer && TieFree(agg, raw) && Aggregates(raw, agg, v) ensures Value(answer[g], agg) == v {
      AggregatesUpToTies(answer[g], raw, agg, v);
    }
  }

  /** Main result. After any legal run with successful transactions, a query that merges all
      matching series answers, bucket by bucket, what aggregating their raw points together gives;
      first and last agree unless two series tie at the first or last timestamp. */
  lemma MergedSeriesEqualsAggregate(steps: seq<Step>, q: Query, rowsOrder: seq<HotKey>, hotOrder: seq<HotKey>,
                                    points: seq<RawPoint>, bucket: int)
    requires LegalRun(steps) && AllCommitted(steps)
    requires Aligned(q) && q.start >= WindowStart(steps) && q.start >= 0
    requires Enumerates(rowsOrder, RowsVisited(Run(steps), q)) && Enumerates(hotOrder, HotVisited(Run(steps), q))
    requires RawQuery(points, Run(steps).raw, q)
    ensures MergedAgrees(MergedAnswer(Run(steps), q, rowsOrder, hotOrder), q, points, bucket)
  {
    hide Good, RawQuery, MergedAnswer, MergedAgrees;
    RunGood(steps);
    PendingApartFromStored(steps);
    MergedMatchesRaw(Run(steps), Written(steps), TrimTime(steps), LastTime(steps), q, rowsOrder, hotOrder, points, bucket);
  }
}
