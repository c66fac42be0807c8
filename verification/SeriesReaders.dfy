/** Readers that do not find the store between two calls: what a query answers after a failed
    replacement, and inside a write that is still going on. */
module SeriesReaders {
  import opened Words
  import opened Clock
  import opened Timeline
  import opened RawSeries
  import opened Selection
  import opened Rollup
  import opened Window
  import opened WindowSteps
  import opened WindowFlush
  import opened WindowRuns
  import opened WindowHistory
  import opened Aggregate
  import opened SeriesRead
  import opened SeriesResult

  // ---- the exact condition for a whole answer ------------------------------------------------------

  /** A replacement waits on top of the row it should replace. */
  predicate Shadowed(st: State, k: HotKey) {
    k in st.replace && k in st.rows
  }

  function CountOf(order: seq<HotKey>, buckets: Buckets, interval: int, g: GroupKey): int {
    if order == [] then 0
    else
      var k := order[|order| - 1];
      CountOf(order[..|order| - 1], buckets, interval, g) + if Target(k, interval) == g then BucketOf(buckets, k).count else 0
  }

  lemma MergeCount(a: Summary, b: Summary)
    ensures Merge(a, b).count == a.count + b.count
  {
  }

  lemma {:induction false} ConsumedCount(groups: Groups, order: seq<HotKey>, buckets: Buckets, interval: int, g: GroupKey)
    ensures GroupOf(ConsumeAll(groups, order, buckets, interval), g).count ==
            GroupOf(groups, g).count + CountOf(order, buckets, interval, g)
  {
    hide Merge;
    if order != [] {
      var init, k := order[..|order| - 1], order[|order| - 1];
      ConsumedCount(groups, init, buckets, interval, g);
      MergeCount(GroupOf(ConsumeAll(groups, init, buckets, interval), Target(k, interval)), BucketOf(buckets, k));
    }
  }

  /** The order without shadowed rows. */
  function Visible(st: State, order: seq<HotKey>): seq<HotKey> {
    if order == [] then []
    else
      var rest, k := Visible(st, order[..|order| - 1]), order[|order| - 1];
      if Shadowed(st, k) then rest else rest + [k]
  }

  ghost predicate NoRepeats(order: seq<HotKey>) {
    forall i, j :: 0 <= i < j < |order| ==> order[i] != order[j]
  }

  lemma {:induction false} VisibleMembers(st: State, order: seq<HotKey>)
    requires NoRepeats(order)
    ensures NoRepeats(Visible(st, order))
    ensures forall k :: k in Visible(st, order) <==> k in order && !Shadowed(st, k)
  {
    hide Shadowed;
    if order != [] {
      var init, k := order[..|order| - 1], order[|order| - 1];
      VisibleMembers(st, init);
      assert order == init + [k];
      assert k !in init;
      AddedNew(Visible(st, init), k);
    }
  }

  lemma AddedNew(order: seq<HotKey>, k: HotKey)
    requires NoRepeats(order) && k !in order
    ensures NoRepeats(order + [k])
  {
  }

  /** The rows a replacement does not shadow. */
  function Unshadowed(st: State): State {
    st.(rows := map k | k in st.rows && k !in st.replace :: st.rows[k])
  }

  lemma {:induction false} ShadowedCount(st: State, order: seq<HotKey>, interval: int, g: GroupKey)
    requires RowsNonEmpty(st.rows) && forall i :: 0 <= i < |order| ==> order[i] in st.rows
    ensures CountOf(Visible(st, order), Unshadowed(st).rows, interval, g) <= CountOf(order, st.rows, interval, g)
    ensures (exists k :: k in order && Shadowed(st, k) && Target(k, interval) == g) ==>
              CountOf(Visible(st, order), Unshadowed(st).rows, interval, g) < CountOf(order, st.rows, interval, g)
  {
    hide Target;
    if order != [] {
      var init, k := order[..|order| - 1], order[|order| - 1];
      ShadowedCount(st, init, interval, g);
      assert order == init + [k];
      var v := Visible(st, init);
      assert (v + [k])[..|v|] == v;
    }
  }

  lemma UnshadowedAccounts(st: State, k: HotKey)
    requires Accounts(st, k)
    ensures Accounts(Unshadowed(st), k)
  {
    hide Summarize, ToMap;
  }

  lemma UnshadowedVisits(st: State, q: Query)
    ensures forall k :: k in RowsVisited(Unshadowed(st), q) <==> k in RowsVisited(st, q) && !Shadowed(st, k)
    ensures HotVisited(Unshadowed(st), q) == HotVisited(st, q)
  {
  }

  /** A group whose minutes hold a shadowed row counts samples twice. */
  lemma ShadowedGroupWrong(st: State, q: Query, rowsOrder: seq<HotKey>, hotOrder: seq<HotKey>, k: HotKey)
    requires RawOrdered(st.raw) && Aligned(q) && RowsNonEmpty(st.rows)
    requires forall x: HotKey :: x.bucket >= q.start ==> Accounts(st, x)
    requires Enumerates(rowsOrder, RowsVisited(st, q)) && Enumerates(hotOrder, HotVisited(st, q))
    requires Visits(q, k) && Shadowed(st, k)
    ensures var g := Target(k, q.interval);
            GroupOf(Answer(st, q, rowsOrder, hotOrder), g).count > Summarize(SeriesOf(st.raw, g.series), InGroup(q, g)).count
  {
    hide Accounts, Pick, Fold, Target, RowsVisited, HotVisited, Visits, InGroup;
    var g, clean, visible := Target(k, q.interval), Unshadowed(st), Visible(st, rowsOrder);
    VisibleEnumerates(st, q, rowsOrder);
    forall x: HotKey | x.bucket >= q.start ensures Accounts(clean, x) {
      UnshadowedAccounts(st, x);
    }
    AnswerExact(clean, q, visible, hotOrder, g);
    ConsumedCount(map[], rowsOrder, st.rows, q.interval, g);
    ConsumedCount(map[], visible, clean.rows, q.interval, g);
    ConsumedCount(ConsumeAll(map[], rowsOrder, st.rows, q.interval), hotOrder, st.hot, q.interval, g);
    ConsumedCount(ConsumeAll(map[], visible, clean.rows, q.interval), hotOrder, st.hot, q.interval, g);
    VisitedRow(st, q, k);
    ShadowedCount(st, rowsOrder, q.interval, g);
  }

  lemma VisibleEnumerates(st: State, q: Query, order: seq<HotKey>)
    requires Enumerates(order, RowsVisited(st, q))
    ensures Enumerates(Visible(st, order), RowsVisited(Unshadowed(st), q))
    ensures HotVisited(Unshadowed(st), q) == HotVisited(st, q)
    ensures forall i :: 0 <= i < |order| ==> order[i] in st.rows
  {
    hide Visits;
    UnshadowedVisits(st, q);
    VisibleMembers(st, order);
    var visible := Visible(st, order);
    forall i | 0 <= i < |visible| ensures visible[i] in RowsVisited(Unshadowed(st), q) {
      assert visible[i] in visible;
    }
  }

  lemma VisitedRow(st: State, q: Query, k: HotKey)
    requires Visits(q, k) && k in st.rows
    ensures k in RowsVisited(st, q)
  {
  }

  /** A whole answer is right, group by group, exactly when no visited minute has a replacement
      pending on top of its row. */
  lemma QueryExactIff(st: State, q: Query, rowsOrder: seq<HotKey>, hotOrder: seq<HotKey>)
    requires RawOrdered(st.raw) && Aligned(q) && RowsNonEmpty(st.rows)
    requires forall k: HotKey :: k.bucket >= q.start ==> Accounts(st, k)
    requires Enumerates(rowsOrder, RowsVisited(st, q)) && Enumerates(hotOrder, HotVisited(st, q))
    ensures (forall g :: GroupOf(Answer(st, q, rowsOrder, hotOrder), g) == Summarize(SeriesOf(st.raw, g.series), InGroup(q, g)))
            <==> forall k :: Visits(q, k) ==> !Shadowed(st, k)
  {
    hide Accounts, Pick, Fold, Answer, RowsVisited, HotVisited, Visits, InGroup, Enumerates;
    if forall k :: Visits(q, k) ==> !Shadowed(st, k) {
      forall g ensures GroupOf(Answer(st, q, rowsOrder, hotOrder), g) == Summarize(SeriesOf(st.raw, g.series), InGroup(q, g)) {
        AnswerExact(st, q, rowsOrder, hotOrder, g);
      }
    } else {
      var k :| Visits(q, k) && Shadowed(st, k);
      ShadowedGroupWrong(st, q, rowsOrder, hotOrder, k);
    }
  }

  // ---- readers inside a write -------------------------------------------------------------------------

  /** The state between the two halves of a write: the raw window has the batch, nothing else has.
      The view lock is free there, whatever the batch goes on to rebuild. */
  function Between(st: State, points: seq<Point>, now: int): State {
    st.(raw := PutAll(Trim(st.raw, RawCutoff(now)), points, RawCutoff(now)))
  }

  /** The batch brings the group a timestamp it does not have yet. */
  ghost predicate NewInGroup(raw: RawWindow, points: seq<Point>, q: Query, g: GroupKey) {
    exists i :: 0 <= i < |points| && points[i].series == g.series
                && IsNew(SeriesOf(raw, g.series), InGroup(q, g), EntryOf(points[i]))
  }

  predicate IsNew(v: seq<Entry>, p: Entry -> bool, e: Entry) {
    p(e) && e.timestamp !in ToMap(v)
  }

  /** The condition looks at the time of an entry only. */
  ghost predicate ByTime(p: Entry -> bool) {
    forall a: Entry, b: Entry :: a.timestamp == b.timestamp ==> p(a) == p(b)
  }

  lemma {:induction false} UpsertAllStamps(v: seq<Entry>, es: seq<Entry>, t: int)
    requires Ascending(v)
    ensures t in ToMap(UpsertAll(v, es)) ==> t in ToMap(v) || exists j :: 0 <= j < |es| && es[j].timestamp == t
    ensures t in ToMap(v) ==> t in ToMap(UpsertAll(v, es))
  {
    hide Upsert, ToMap;
    if es != [] {
      var init, e := es[..|es| - 1], es[|es| - 1];
      UpsertAllStamps(v, init, t);
      UpsertAllKeepsOrder(v, init);
      UpsertUpdatesMap(UpsertAll(v, init), e);
      if exists j :: 0 <= j < |init| && init[j].timestamp == t {
        var j :| 0 <= j < |init| && init[j].timestamp == t;
        assert es[j].timestamp == t;
      }
      assert es[|es| - 1] == e;
    }
  }

  /** Overwriting a sample does not change how many are picked; a new one adds one. */
  lemma PickCountStep(v: seq<Entry>, e: Entry, p: Entry -> bool)
    requires Ascending(v) && ByTime(p)
    ensures |Pick(Upsert(v, e), p)| == |Pick(v, p)| + if IsNew(v, p, e) then 1 else 0
  {
    hide Pick, Before, From, Upsert, ToMap;
    PickUpsert(v, e, p);
    PickOne(e, p);
    PickNothing(p);
    if e.timestamp in ToMap(v) {
      ToMapEntries(v);
      PickOne(ToMap(v)[e.timestamp], p);
    }
  }

  lemma {:induction false} PickCountAll(v: seq<Entry>, es: seq<Entry>, p: Entry -> bool)
    requires Ascending(v) && ByTime(p)
    ensures |Pick(UpsertAll(v, es), p)| >= |Pick(v, p)|
    ensures |Pick(UpsertAll(v, es), p)| == |Pick(v, p)| <==> forall i :: 0 <= i < |es| ==> !IsNew(v, p, es[i])
  {
    hide Pick, Upsert, IsNew, ToMap;
    if es != [] {
      var init, e := es[..|es| - 1], es[|es| - 1];
      PickCountAll(v, init, p);
      UpsertAllKeepsOrder(v, init);
      PickCountStep(UpsertAll(v, init), e, p);
      StillNew(v, init, e, p);
    }
  }

  /** A sample is new to the extended list exactly when it is new to the list and to the extension. */
  lemma StillNew(v: seq<Entry>, es: seq<Entry>, e: Entry, p: Entry -> bool)
    requires Ascending(v) && ByTime(p)
    ensures IsNew(UpsertAll(v, es), p, e) ==> IsNew(v, p, e)
    ensures IsNew(v, p, e) && !IsNew(UpsertAll(v, es), p, e) ==> exists j :: 0 <= j < |es| && IsNew(v, p, es[j])
  {
    hide ToMap, UpsertAll;
    UpsertAllStamps(v, es, e.timestamp);
    if IsNew(v, p, e) && !IsNew(UpsertAll(v, es), p, e) {
      var j :| 0 <= j < |es| && es[j].timestamp == e.timestamp;
      assert IsNew(v, p, es[j]);
    }
  }

  ghost predicate PointsHave(points: seq<Point>, s: SeriesKey, p: Entry -> bool) {
    forall i :: 0 <= i < |points| && points[i].series == s ==> p(EntryOf(points[i]))
  }

  ghost predicate AllHave(es: seq<Entry>, p: Entry -> bool) {
    forall j :: 0 <= j < |es| ==> p(es[j])
  }

  lemma AllHaveLast(es: seq<Entry>, e: Entry, p: Entry -> bool)
    ensures AllHave(es + [e], p) <==> AllHave(es, p) && p(e)
  {
    var more := es + [e];
    assert more[|es|] == e;
    assert forall j :: 0 <= j < |es| ==> more[j] == es[j];
  }

  lemma PointsHaveLast(points: seq<Point>, s: SeriesKey, p: Entry -> bool)
    requires points != []
    ensures var init, x := points[..|points| - 1], points[|points| - 1];
            PointsHave(points, s, p) <==> PointsHave(init, s, p) && (x.series == s ==> p(EntryOf(x)))
  {
    hide EntryOf;
    var init := points[..|points| - 1];
    assert forall i :: 0 <= i < |init| ==> points[i] == init[i];
  }

  lemma {:induction false} EntriesHave(points: seq<Point>, s: SeriesKey, p: Entry -> bool)
    ensures PointsHave(points, s, p) <==> AllHave(EntriesFor(points, s), p)
  {
    hide EntryOf, PointsHave, AllHave;
    if points == [] {
      NobodyHas(s, p);
    } else {
      var init, x := points[..|points| - 1], points[|points| - 1];
      EntriesHave(init, s, p);
      PointsHaveLast(points, s, p);
      AllHaveLast(EntriesFor(init, s), EntryOf(x), p);
    }
  }

  lemma NobodyHas(s: SeriesKey, p: Entry -> bool)
    ensures PointsHave([], s, p) && AllHave([], p)
  {
  }

  lemma GroupByTime(q: Query, g: GroupKey)
    ensures ByTime(InGroup(q, g))
    ensures forall e :: InGroup(q, g)(e) ==> e.timestamp >= q.start
  {
    forall a: Entry, b: Entry | a.timestamp == b.timestamp ensures InGroup(q, g)(a) == InGroup(q, g)(b) {
      assert InRange(q, g.series)(a) == InRange(q, g.series)(b);
    }
    forall e ensures InGroup(q, g)(e) ==> e.timestamp >= q.start {
      assert InGroup(q, g)(e) ==> InRange(q, g.series)(e);
    }
  }

  /** What the batch does to one group of the raw window. */
  lemma GroupAfterBatch(raw: RawWindow, points: seq<Point>, now: int, q: Query, g: GroupKey)
    requires RawOrdered(raw) && q.start >= RawCutoff(now)
    ensures var v, after := SeriesOf(raw, g.series), PutAll(Trim(raw, RawCutoff(now)), points, RawCutoff(now));
            && Pick(SeriesOf(after, g.series), InGroup(q, g)) == Pick(UpsertAll(v, EntriesFor(points, g.series)), InGroup(q, g))
            && (|Pick(SeriesOf(after, g.series), InGroup(q, g))| == |Pick(v, InGroup(q, g))|
                <==> !NewInGroup(raw, points, q, g))
  {
    hide Pick, ToMap, From, UpsertAll, EntriesFor, IsNew, InGroup;
    GroupByTime(q, g);
    var v, es, cutoff := SeriesOf(raw, g.series), EntriesFor(points, g.series), RawCutoff(now);
    TrimSeries(raw, cutoff, g.series);
    PutAllSeries(Trim(raw, cutoff), points, cutoff, g.series, v);
    PickFrom(UpsertAll(v, es), cutoff, InGroup(q, g));
    RawOrderedAt(raw, g.series);
    PickCountAll(v, es, InGroup(q, g));
    EntriesHave(points, g.series, e => !IsNew(v, InGroup(q, g), e));
  }

  /** A reader admitted between the halves of a write is a batch behind: its answer is the
      aggregate of the raw window before the batch. Its count is the number of samples a raw query
      finds there exactly when the batch brings no new timestamp, and a group none of whose samples
      the batch writes is right altogether. */
  lemma ReaderBetweenHalves(steps: seq<Step>, points: seq<Point>, now: int, q: Query,
                            rowsOrder: seq<HotKey>, hotOrder: seq<HotKey>, g: GroupKey)
    requires LegalRun(steps) && AllCommitted(steps) && LastTime(steps) <= now
    requires Aligned(q) && q.start >= RawCutoff(now) && q.start >= 0
    requires var st := Between(Run(steps), points, now);
             Enumerates(rowsOrder, RowsVisited(st, q)) && Enumerates(hotOrder, HotVisited(st, q))
    ensures var before := Run(steps); var st := Between(before, points, now);
            var group, after := GroupOf(Answer(st, q, rowsOrder, hotOrder), g), Summarize(SeriesOf(st.raw, g.series), InGroup(q, g));
            && group == Summarize(SeriesOf(before.raw, g.series), InGroup(q, g))
            && (group.count == after.count <==> !NewInGroup(before.raw, points, q, g))
            && ((forall i :: 0 <= i < |points| ==> !(points[i].series == g.series && InGroup(q, g)(EntryOf(points[i])))) ==> group == after)
  {
    hide Accounts, Pick, Fold, From, Latest, InGroup, Trim, PutAll, NewInGroup, UpsertAll, BucketStart;
    var before := Run(steps);
    RunGood(steps);
    PendingApartFromStored(steps);
    TrimLater(TrimTime(steps), now);
    SameTables(before, Between(before, points, now), q, rowsOrder, hotOrder);
    AnswerExact(before, q, rowsOrder, hotOrder, g);
    GroupAfterBatch(before.raw, points, now, q, g);
    if forall i :: 0 <= i < |points| ==> !(points[i].series == g.series && InGroup(q, g)(EntryOf(points[i]))) {
      GroupUntouched(before.raw, points, q, g);
    }
  }

  lemma TrimLater(trimmed: int, now: int)
    requires trimmed <= now
    ensures RawCutoff(trimmed) <= RawCutoff(now)
  {
    BucketMonotone(trimmed - RAW_RETENTION, now - RAW_RETENTION, MINUTE);
  }

  /** Rows and pending buckets decide the answer. */
  lemma SameTables(a: State, b: State, q: Query, rowsOrder: seq<HotKey>, hotOrder: seq<HotKey>)
    requires a.rows == b.rows && a.hot == b.hot
    ensures Answer(a, q, rowsOrder, hotOrder) == Answer(b, q, rowsOrder, hotOrder)
    ensures RowsVisited(a, q) == RowsVisited(b, q) && HotVisited(a, q) == HotVisited(b, q)
  {
    hide ConsumeAll;
  }

  lemma GroupUntouched(raw: RawWindow, points: seq<Point>, q: Query, g: GroupKey)
    requires RawOrdered(raw)
    requires forall i :: 0 <= i < |points| ==> !(points[i].series == g.series && InGroup(q, g)(EntryOf(points[i])))
    ensures var v := SeriesOf(raw, g.series);
            Pick(UpsertAll(v, EntriesFor(points, g.series)), InGroup(q, g)) == Pick(v, InGroup(q, g))
  {
    hide Pick, UpsertAll, InGroup;
    RawOrderedAt(raw, g.series);
    EntriesHave(points, g.series, e => !InGroup(q, g)(e));
    GroupByTime(q, g);
    UnseenAll(SeriesOf(raw, g.series), EntriesFor(points, g.series), InGroup(q, g));
  }


  lemma {:induction false} UnseenAll(v: seq<Entry>, es: seq<Entry>, p: Entry -> bool)
    requires Ascending(v) && ByTime(p) && forall i :: 0 <= i < |es| ==> !p(es[i])
    ensures Pick(UpsertAll(v, es), p) == Pick(v, p)
  {
    hide Pick, Upsert, ToMap;
    if es != [] {
      var init, e := es[..|es| - 1], es[|es| - 1];
      UnseenAll(v, init, p);
      UpsertAllKeepsOrder(v, init);
      ToMapEntries(UpsertAll(v, init));
      PickUpsertUnseen(UpsertAll(v, init), e, p);
    }
  }

  /** A reader admitted between the hot half of a write and its flush, which is possible only when
      the batch rebuilds nothing, finds both halves: its answer is that of the raw points. */
  lemma ReaderBeforeFlushExact(steps: seq<Step>, step: Step, q: Query, rowsOrder: seq<HotKey>, hotOrder: seq<HotKey>,
                               points: seq<RawPoint>, g: GroupKey)
    requires LegalRun(steps + [step]) && AllCommitted(steps) && step.Write? && !Idle(step)
    requires RebuildKeys(Trim(Run(steps).raw, RawCutoff(step.rawNow)), step.points,
                         RawCutoff(step.rawNow), DirectCutoff(step.rawNow)) == {}
    requires Aligned(q) && q.start >= RawCutoff(step.rawNow) && q.start >= 0
    requires var mid := Middle(Run(steps), step);
             Enumerates(rowsOrder, RowsVisited(mid, q)) && Enumerates(hotOrder, HotVisited(mid, q)) && RawQuery(points, mid.raw, q)
    ensures var answer, members := Answer(Middle(Run(steps), step), q, rowsOrder, hotOrder), Members(points, q.interval, g);
            && (g in answer <==> members != [])
            && (g in answer ==> answer[g].count == |members|)
            && forall agg, v :: g in answer && Aggregates(members, agg, v) ==> Value(answer[g], agg) == v
  {
    hide Good, RawQuery, Answer, Members, Aggregates, Value, RebuildKeys, PutAll, AddHotAll;
    assert (steps + [step])[..|steps|] == steps;
    RunGood(steps);
    PendingApartFromStored(steps);
    MiddleGood(Run(steps), step, Written(steps), TrimTime(steps), LastTime(steps));
    var mid := Middle(Run(steps), step);
    assert mid.replace == Run(steps).replace && mid.rows == Run(steps).rows;
    AnswerMatchesRaw(mid, Written(steps) + step.points, step.rawNow, step.rawNow, q, rowsOrder, hotOrder, points, g);
  }

  /** A reader admitted between the trim and the flush of a flush call gets the answer of the raw
      points that are left. */
  lemma ReaderInsideFlushExact(steps: seq<Step>, now: int, q: Query, rowsOrder: seq<HotKey>, hotOrder: seq<HotKey>,
                               points: seq<RawPoint>, g: GroupKey)
    requires LegalRun(steps) && AllCommitted(steps) && LastTime(steps) <= now && ClockInRange(now)
    requires Aligned(q) && q.start >= RawCutoff(now) && q.start >= 0
    requires var mid := Run(steps).(raw := Trim(Run(steps).raw, RawCutoff(now)));
             Enumerates(rowsOrder, RowsVisited(mid, q)) && Enumerates(hotOrder, HotVisited(mid, q)) && RawQuery(points, mid.raw, q)
    ensures var mid := Run(steps).(raw := Trim(Run(steps).raw, RawCutoff(now)));
            var answer, members := Answer(mid, q, rowsOrder, hotOrder), Members(points, q.interval, g);
            && (g in answer <==> members != [])
            && (g in answer ==> answer[g].count == |members|)
            && forall agg, v :: g in answer && Aggregates(members, agg, v) ==> Value(answer[g], agg) == v
  {
    hide Good, RawQuery, Answer, Members, Aggregates, Value, Trim;
    var st := Run(steps);
    var order := AnyOrder(st.hot, now);
    var step := Step.Flush(now, true, order);
    RunGood(steps);
    PendingApartFromStored(steps);
    MiddleGood(st, step, Written(steps), TrimTime(steps), LastTime(steps));
    AnswerMatchesRaw(Middle(st, step), Written(steps) + [], now, now, q, rowsOrder, hotOrder, points, g);
  }
}
