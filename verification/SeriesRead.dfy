/** The minute-tier read path: persisted rows and pending buckets stream into output groups
    in any order, and each group is the aggregate of its raw samples. */
module SeriesRead {
  import opened Words
  import opened Clock
  import opened Timeline
  import opened RawSeries
  import opened Selection
  import opened Rollup
  import opened Window
  import opened WindowSteps
  import opened WindowFlush
  import opened WindowRuns
  import opened Aggregate

  /** `entities` empty means every entity; `tagsMatch` is the tag filter on tag-set hashes. */
  datatype Query = Query(metricName: string, entities: set<string>, tagsMatch: string -> bool,
                         start: int, end: int, interval: int)

  predicate Matches(q: Query, s: SeriesKey) {
    s.metricName == q.metricName && (q.entities == {} || s.entityID in q.entities) && q.tagsMatch(s.tagsHash)
  }

  /** The source buckets a scan visits. */
  predicate Visits(q: Query, k: HotKey) {
    Matches(q, k.series) && BucketStart(q.start, MINUTE) <= k.bucket <= q.end
  }

  function RowsVisited(st: State, q: Query): set<HotKey> {
    set k | k in st.rows && Visits(q, k)
  }

  function HotVisited(st: State, q: Query): set<HotKey> {
    set k | k in st.hot && Visits(q, k) && st.hot[k].count != 0
  }

  function Target(k: HotKey, interval: int): GroupKey {
    GroupKey(k.series, BucketStart(k.bucket, interval))
  }

  type Groups = map<GroupKey, Summary>

  function GroupOf(groups: Groups, g: GroupKey): Summary {
    if g in groups then groups[g] else EMPTY
  }

  /** Streaming one source bucket into its output group. */
  function ConsumeOne(groups: Groups, k: HotKey, b: Summary, interval: int): Groups {
    groups[Target(k, interval) := Merge(GroupOf(groups, Target(k, interval)), b)]
  }

  function ConsumeAll(groups: Groups, order: seq<HotKey>, buckets: Buckets, interval: int): Groups {
    if order == [] then groups
    else
      var k := order[|order| - 1];
      ConsumeOne(ConsumeAll(groups, order[..|order| - 1], buckets, interval), k, BucketOf(buckets, k), interval)
  }

  /** The group of a source bucket: one per series, or one for all series of the metric. */
  function TargetFor(k: HotKey, interval: int, preserve: bool): GroupKey {
    GroupKey(if preserve then k.series else SeriesKey(k.series.metricName, "", ""), BucketStart(k.bucket, interval))
  }

  function ConsumeFor(groups: Groups, order: seq<HotKey>, buckets: Buckets, interval: int, preserve: bool): Groups {
    if order == [] then groups
    else
      var rest, k := ConsumeFor(groups, order[..|order| - 1], buckets, interval, preserve), order[|order| - 1];
      var g := TargetFor(k, interval, preserve);
      rest[g := Merge(GroupOf(rest, g), BucketOf(buckets, k))]
  }

  lemma {:induction false} PreservedIsConsumeAll(groups: Groups, order: seq<HotKey>, buckets: Buckets, interval: int)
    ensures ConsumeFor(groups, order, buckets, interval, true) == ConsumeAll(groups, order, buckets, interval)
  {
    hide Merge;
    if order != [] {
      PreservedIsConsumeAll(groups, order[..|order| - 1], buckets, interval);
    }
  }

  /** `preserve` keeps series apart; otherwise all of them share the groups of their metric. */
  class SeriesAccumulator {
    var groups: Groups
    const interval: int
    const preserve: bool

    constructor (interval: int, preserve: bool)
      ensures groups == map[] && this.interval == interval && this.preserve == preserve
    {
      groups := map[];
      this.interval, this.preserve := interval, preserve;
    }

    method Consume(series: SeriesKey, sourceBucket: int, labelsHash: string, b: Summary)
      modifies this`groups
      ensures var g := TargetFor(HotKey(series, labelsHash, sourceBucket), interval, preserve);
              groups == old(groups)[g := Merge(GroupOf(old(groups), g), b)]
    {
      var key := GroupKey(SeriesKey(series.metricName, "", ""), BucketStart(sourceBucket, interval));
      if preserve {
        key := key.(series := series);
      }
      if key !in groups {
        groups := groups[key := EMPTY];
      }
      var merged := MergeValues(groups[key], b);
      groups := groups[key := merged];
    }

    /** Field by field, as the scan merges the selected columns of one row. */
    method MergeValues(target: Summary, b: Summary) returns (merged: Summary)
      ensures merged == Merge(target, b)
    {
      merged := target;
      if b.count == 0 {
        return;
      }
      if target.count == 0 {
        merged := merged.(min := b.min, max := b.max);
        merged := merged.(firstVal := b.firstVal, firstTS := b.firstTS);
        merged := merged.(lastVal := b.lastVal, lastTS := b.lastTS);
      } else {
        if b.min < target.min { merged := merged.(min := b.min); }
        if b.max > target.max { merged := merged.(max := b.max); }
        if b.firstTS < target.firstTS { merged := merged.(firstVal := b.firstVal, firstTS := b.firstTS); }
        if b.lastTS > target.lastTS { merged := merged.(lastVal := b.lastVal, lastTS := b.lastTS); }
      }
      merged := merged.(count := merged.count + b.count);
      merged := merged.(sum := merged.sum + b.sum, sumSq := merged.sumSq + b.sumSq);
    }

    /** Streams every visited bucket of one table, in whatever order the table yields them. */
    method Scan(buckets: Buckets, visited: set<HotKey>) returns (ghost order: seq<HotKey>)
      requires visited <= buckets.Keys
      modifies this`groups
      ensures Enumerates(order, visited)
      ensures groups == ConsumeFor(old(groups), order, buckets, interval, preserve)
    {
      hide Merge;
      order := [];
      var left := visited;
      while left != {}
        invariant left <= visited && Enumerates(order, visited - left)
        invariant groups == ConsumeFor(old(groups), order, buckets, interval, preserve)
        decreases left
      {
        var k :| k in left;
        Consume(k.series, k.bucket, k.labelsHash, buckets[k]);
        assert (order + [k])[..|order|] == order;
        order := order + [k];
        left := left - {k};
      }
    }
  }

  // ---- which samples a partly streamed group stands for ------------------------------------------

  /** The minute bucket an entry of series `s` belongs to. */
  function MinuteOf(s: SeriesKey, e: Entry): HotKey {
    HotKey(s, e.labels.hash, BucketStart(e.timestamp, MINUTE))
  }

  predicate FromRow(st: State, k: HotKey, e: Entry) {
    k !in st.replace && e.timestamp in FlushedOf(st, k)
  }

  /** Entries of group `g` whose source bucket has been streamed already. */
  function Streamed(st: State, g: GroupKey, interval: int, rowsDone: set<HotKey>, hotDone: set<HotKey>): Entry -> bool {
    (e: Entry) =>
      var k := MinuteOf(g.series, e);
      Target(k, interval) == g && ((k in rowsDone && FromRow(st, k, e)) || (k in hotDone && !FromRow(st, k, e)))
  }

  ghost predicate StreamedSoFar(st: State, groups: Groups, interval: int, rowsDone: set<HotKey>, hotDone: set<HotKey>) {
    forall g: GroupKey :: GroupOf(groups, g) ==
                Summarize(SeriesOf(st.raw, g.series), Streamed(st, g, interval, rowsDone, hotDone))
  }

  function Source(st: State, k: HotKey, fromRows: bool): Entry -> bool {
    (e: Entry) => InKey(k)(e) && FromRow(st, k, e) == fromRows
  }

  /** What a single source bucket contributes. */
  ghost predicate SourceExact(st: State, k: HotKey) {
    var v := SeriesOf(st.raw, k.series);
    && (k in st.rows ==> st.rows[k] == Summarize(v, Source(st, k, true)))
    && (k in st.hot ==> st.hot[k] == Summarize(v, Source(st, k, false)))
  }

  lemma SourceIsPart(st: State, k: HotKey, v: seq<Entry>, fromRows: bool)
    requires k !in st.replace
    ensures Summarize(v, InPart(k, FlushedOf(st, k), fromRows)) == Summarize(v, Source(st, k, fromRows))
  {
    var p, q := InPart(k, FlushedOf(st, k), fromRows), Source(st, k, fromRows);
    forall i | 0 <= i < |v| ensures p(v[i]) == q(v[i]) {
      var e := v[i];
      assert p(e) == (InKey(k)(e) && ((e.timestamp in FlushedOf(st, k)) == fromRows));
      assert q(e) == (InKey(k)(e) && FromRow(st, k, e) == fromRows);
      assert FromRow(st, k, e) == (e.timestamp in FlushedOf(st, k));
    }
    PickCongruent(v, p, q);
  }

  lemma AccountsSources(st: State, k: HotKey)
    requires Accounts(st, k) && !(k in st.replace && k in st.rows)
    ensures SourceExact(st, k)
  {
    var v, f := SeriesOf(st.raw, k.series), FlushedOf(st, k);
    if k in st.replace {
      PickCongruent(v, InKey(k), Source(st, k, false));
    } else {
      SourceIsPart(st, k, v, true);
      SourceIsPart(st, k, v, false);
    }
  }

  /** Streaming one more source bucket adds exactly its samples to its group, and no other. */
  lemma StreamStep(st: State, groups: Groups, interval: int, rowsDone: set<HotKey>, hotDone: set<HotKey>,
                   k: HotKey, fromRows: bool)
    requires RawOrdered(st.raw) && SourceExact(st, k)
    requires StreamedSoFar(st, groups, interval, rowsDone, hotDone)
    requires if fromRows then k in st.rows && k !in rowsDone else k in st.hot && k !in hotDone
    ensures StreamedSoFar(st, ConsumeOne(groups, k, if fromRows then st.rows[k] else st.hot[k], interval), interval,
                          if fromRows then rowsDone + {k} else rowsDone, if fromRows then hotDone else hotDone + {k})
  {
    hide Merge, Fold, Pick;
    var rows', hot' := if fromRows then rowsDone + {k} else rowsDone, if fromRows then hotDone else hotDone + {k};
    var b := if fromRows then st.rows[k] else st.hot[k];
    forall g: GroupKey ensures GroupOf(ConsumeOne(groups, k, b, interval), g) ==
                     Summarize(SeriesOf(st.raw, g.series), Streamed(st, g, interval, rows', hot'))
    {
      var v := SeriesOf(st.raw, g.series);
      var before, after := Streamed(st, g, interval, rowsDone, hotDone), Streamed(st, g, interval, rows', hot');
      if g == Target(k, interval) {
        var added := Source(st, k, fromRows);
        forall i | 0 <= i < |v| ensures !(before(v[i]) && added(v[i])) && after(v[i]) == (before(v[i]) || added(v[i])) {
          InMinute(v[i], g.series, k);
        }
        SummarizeUnion(v, before, added, after);
      } else {
        PickCongruent(v, before, after);
      }
    }
  }

  lemma {:induction false} StreamAll(st: State, groups: Groups, interval: int, rowsDone: set<HotKey>, order: seq<HotKey>,
                                     fromRows: bool)
    requires RawOrdered(st.raw)
    requires forall i :: 0 <= i < |order| ==>
               SourceExact(st, order[i]) && (if fromRows then order[i] in st.rows else order[i] in st.hot)
    requires forall i, j :: 0 <= i < j < |order| ==> order[i] != order[j]
    requires StreamedSoFar(st, groups, interval, if fromRows then {} else rowsDone, {})
    ensures StreamedSoFar(st, ConsumeAll(groups, order, if fromRows then st.rows else st.hot, interval), interval,
                          if fromRows then (set k | k in order) else rowsDone,
                          if fromRows then {} else (set k | k in order))
  {
    hide StreamedSoFar, SourceExact, ConsumeOne;
    if order == [] {
      assert (set k: HotKey | k in order) == {};
    } else {
      var init, k := order[..|order| - 1], order[|order| - 1];
      StreamAll(st, groups, interval, rowsDone, init, fromRows);
      assert order == init + [k];
      assert (set x | x in order) == (set x | x in init) + {k};
      var done := set x | x in init;
      StreamStep(st, ConsumeAll(groups, init, if fromRows then st.rows else st.hot, interval), interval,
                 if fromRows then done else rowsDone, if fromRows then {} else done, k, fromRows);
    }
  }

  lemma NothingStreamed(st: State, interval: int)
    ensures StreamedSoFar(st, map[], interval, {}, {})
  {
    forall g: GroupKey ensures Summarize(SeriesOf(st.raw, g.series), Streamed(st, g, interval, {}, {})) == EMPTY {
      EmptyPart(SeriesOf(st.raw, g.series), Streamed(st, g, interval, {}, {}));
    }
  }

  // ---- the answer of an aligned query ---------------------------------------------------------------

  /** Whole minutes on both ends, and an interval made of whole minutes. */
  predicate Aligned(q: Query) {
    q.start % MINUTE == 0 && (q.end + 1) % MINUTE == 0 && q.interval > 0 && q.interval % MINUTE == 0
  }

  function InRange(q: Query, s: SeriesKey): Entry -> bool {
    (e: Entry) => Matches(q, s) && q.start <= e.timestamp <= q.end
  }

  function InGroup(q: Query, g: GroupKey): Entry -> bool {
    (e: Entry) => InRange(q, g.series)(e) && BucketStart(e.timestamp, q.interval) == g.bucket
  }

  function Answer(st: State, q: Query, rowsOrder: seq<HotKey>, hotOrder: seq<HotKey>): Groups {
    ConsumeAll(ConsumeAll(map[], rowsOrder, st.rows, q.interval), hotOrder, st.hot, q.interval)
  }

  lemma MinuteInRange(q: Query, ts: int)
    requires Aligned(q)
    ensures q.start <= ts <= q.end <==> BucketStart(q.start, MINUTE) <= BucketStart(ts, MINUTE) <= q.end
  {
    var b := BucketStart(ts, MINUTE);
    MultipleUnique(BucketStart(q.start, MINUTE), q.start, MINUTE);
    if b < q.start <= ts {
      MultipleUnique(b, q.start, MINUTE);
    }
    if b <= q.end < ts {
      MultipleUnique(b, q.end + 1, MINUTE);
    }
  }

  lemma NonEmptyPart(v: seq<Entry>, p: Entry -> bool, i: int)
    requires 0 <= i < |v| && p(v[i])
    ensures Summarize(v, p).count > 0
  {
    PickNonEmpty(v, p, i);
  }

  /** Every sample in range sits in a visited source bucket, on the side that accounts for it. */
  lemma SampleVisited(st: State, q: Query, s: SeriesKey, i: int)
    requires 0 <= i < |SeriesOf(st.raw, s)| && Aligned(q)
    requires Accounts(st, MinuteOf(s, SeriesOf(st.raw, s)[i]))
    ensures var e := SeriesOf(st.raw, s)[i];
            var k := MinuteOf(s, e);
            InRange(q, s)(e) <==>
              (k in RowsVisited(st, q) && FromRow(st, k, e)) || (k in HotVisited(st, q) && !FromRow(st, k, e))
  {
    hide Fold, Pick;
    var v := SeriesOf(st.raw, s);
    var e := v[i];
    var k := MinuteOf(s, e);
    MinuteInRange(q, e.timestamp);
    assert InKey(k)(e);
    if k in st.replace {
      NonEmptyPart(v, InKey(k), i);
    } else {
      NonEmptyPart(v, InPart(k, FlushedOf(st, k), e.timestamp in FlushedOf(st, k)), i);
    }
  }

  /** In every state whose visited minutes are accounted for and whose replacements have no
      row underneath, the streamed groups are the aggregates of the raw samples. */
  lemma AnswerExact(st: State, q: Query, rowsOrder: seq<HotKey>, hotOrder: seq<HotKey>, g: GroupKey)
    requires RawOrdered(st.raw) && Aligned(q) && RowsNonEmpty(st.rows)
    requires forall k: HotKey :: k.bucket >= q.start ==> Accounts(st, k)
    requires forall k :: Visits(q, k) ==> !(k in st.replace && k in st.rows)
    requires Enumerates(rowsOrder, RowsVisited(st, q)) && Enumerates(hotOrder, HotVisited(st, q))
    ensures GroupOf(Answer(st, q, rowsOrder, hotOrder), g) == Summarize(SeriesOf(st.raw, g.series), InGroup(q, g))
  {
    hide Accounts, SourceExact, Pick, Fold;
    MultipleUnique(BucketStart(q.start, MINUTE), q.start, MINUTE);
    forall k | Visits(q, k) ensures SourceExact(st, k) {
      AccountsSources(st, k);
    }
    NothingStreamed(st, q.interval);
    StreamAll(st, map[], q.interval, {}, rowsOrder, true);
    var rowsDone := set k | k in rowsOrder;
    var hotDone := set k | k in hotOrder;
    StreamAll(st, ConsumeAll(map[], rowsOrder, st.rows, q.interval), q.interval, rowsDone, hotOrder, false);
    StreamedIsGroup(st, q, g, rowsDone, hotDone);
  }

  lemma EntryStreamed(st: State, q: Query, g: GroupKey, i: int)
    requires Aligned(q) && 0 <= i < |SeriesOf(st.raw, g.series)|
    requires forall k: HotKey :: k.bucket >= q.start ==> Accounts(st, k)
    ensures var e := SeriesOf(st.raw, g.series)[i];
            Streamed(st, g, q.interval, RowsVisited(st, q), HotVisited(st, q))(e) == InGroup(q, g)(e)
  {
    hide Accounts, FromRow, BucketStart, RowsVisited, HotVisited, Matches, Visits;
    var e := SeriesOf(st.raw, g.series)[i];
    var k := MinuteOf(g.series, e);
    BucketNested(e.timestamp, MINUTE, q.interval);
    VisitedFromStart(st, q, k);
    MinuteInRange(q, e.timestamp);
    var rowsDone, hotDone := RowsVisited(st, q), HotVisited(st, q);
    assert Streamed(st, g, q.interval, rowsDone, hotDone)(e) ==
           (Target(k, q.interval) == g && ((k in rowsDone && FromRow(st, k, e)) || (k in hotDone && !FromRow(st, k, e))));
    assert InGroup(q, g)(e) == (InRange(q, g.series)(e) && BucketStart(e.timestamp, q.interval) == g.bucket);
    assert Target(k, q.interval) == g <==> BucketStart(e.timestamp, q.interval) == g.bucket;
    if k.bucket >= q.start {
      SampleVisited(st, q, g.series, i);
    } else {
      assert !InRange(q, g.series)(e);
    }
  }

  lemma VisitedFromStart(st: State, q: Query, k: HotKey)
    requires Aligned(q)
    ensures BucketStart(q.start, MINUTE) == q.start
    ensures k in RowsVisited(st, q) || k in HotVisited(st, q) ==> k.bucket >= q.start
  {
    MultipleUnique(BucketStart(q.start, MINUTE), q.start, MINUTE);
  }

  lemma StreamedIsGroup(st: State, q: Query, g: GroupKey, rowsDone: set<HotKey>, hotDone: set<HotKey>)
    requires Aligned(q) && rowsDone == RowsVisited(st, q) && hotDone == HotVisited(st, q)
    requires forall k: HotKey :: k.bucket >= q.start ==> Accounts(st, k)
    ensures Summarize(SeriesOf(st.raw, g.series), Streamed(st, g, q.interval, rowsDone, hotDone))
         == Summarize(SeriesOf(st.raw, g.series), InGroup(q, g))
  {
    hide Accounts, Streamed, InGroup, RowsVisited, HotVisited, Pick, Fold;
    var v := SeriesOf(st.raw, g.series);
    var p, r := Streamed(st, g, q.interval, rowsDone, hotDone), InGroup(q, g);
    forall i | 0 <= i < |v| ensures p(v[i]) == r(v[i]) {
      EntryStreamed(st, q, g, i);
    }
    PickCongruent(v, p, r);
  }

  /** What a reader adds up for one minute ignores the replace flag, so it is the minute's
      aggregate exactly when no replacement is pending on top of a stored row. */
  lemma ReaderExactIff(st: State, k: HotKey)
    requires RawOrdered(st.raw) && Accounts(st, k) && AllWellFormed(st.hot) && AllWellFormed(st.rows) && RowsNonEmpty(st.rows)
    ensures Merge(BucketOf(st.rows, k), BucketOf(st.hot, k)) == MinuteSummary(st.raw, k)
            <==> !(k in st.replace && k in st.rows)
  {
    hide Fold, Pick, InKey;
    AccountsDenotes(st, k) by { RawOrderedAt(st.raw, k.series); }
    MergeWellFormed(BucketOf(st.rows, k), BucketOf(st.hot, k));
    MergeUnit(BucketOf(st.hot, k));
  }
}
