/** The answer of a raw query, point by point: which samples of the history it holds, and that an
    answer always exists. */
module RawAnswers {
  import opened Words
  import opened Clock
  import opened Timeline
  import opened RawSeries
  import opened Selection
  import opened Rollup
  import opened Window
  import opened WindowSteps
  import opened WindowFlush
  import opened WindowRuns
  import opened Aggregate
  import opened SeriesRead
  import opened SeriesResult
  import opened SeriesMerged

  function Labelled(s: SeriesKey, obs: seq<Obs>): seq<RawPoint> {
    if obs == [] then [] else Labelled(s, obs[..|obs| - 1]) + [RawPoint(s, obs[|obs| - 1])]
  }

  function ObserveAll(v: seq<Entry>): seq<Obs> {
    Pick(v, Every())
  }

  function Every(): Entry -> bool {
    (e: Entry) => true
  }

  lemma {:induction false} OfSeriesConcat(a: seq<RawPoint>, b: seq<RawPoint>, s: SeriesKey)
    ensures OfSeries(a + b, s) == OfSeries(a, s) + OfSeries(b, s)
  {
    if b == [] {
      assert a + b == a;
    } else {
      OfSeriesConcat(a, b[..|b| - 1], s);
      assert (a + b)[..|a + b| - 1] == a + b[..|b| - 1];
    }
  }

  lemma {:induction false} OfLabelled(s: SeriesKey, obs: seq<Obs>, t: SeriesKey)
    ensures OfSeries(Labelled(s, obs), t) == if s == t then obs else []
  {
    if obs != [] {
      var init, last := obs[..|obs| - 1], obs[|obs| - 1];
      OfLabelled(s, init, t);
      assert (Labelled(s, init) + [RawPoint(s, last)])[..|Labelled(s, init)|] == Labelled(s, init);
    }
  }

  // ---- order -----------------------------------------------------------------------------------

  ghost predicate SeriesOrdered(points: seq<RawPoint>) {
    forall s :: TimeOrdered(OfSeries(points, s))
  }

  lemma {:induction false} InsertKeepsSeries(sorted: seq<RawPoint>, i: int, p: RawPoint)
    requires 0 <= i <= |sorted| && SeriesOrdered(sorted + [p])
    requires forall j :: i <= j < |sorted| ==> sorted[j].obs.ts > p.obs.ts
    ensures forall s :: OfSeries(sorted[..i] + [p] + sorted[i..], s) == OfSeries(sorted + [p], s)
  {
    hide OfSeries;
    assert sorted[..i] + sorted[i..] == sorted;
    forall s ensures OfSeries(sorted[..i] + [p] + sorted[i..], s) == OfSeries(sorted + [p], s) {
      MovedInFront(sorted[..i], sorted[i..], p, s);
    }
  }

  lemma MovedInFront(left: seq<RawPoint>, right: seq<RawPoint>, p: RawPoint, s: SeriesKey)
    requires forall j :: 0 <= j < |right| ==> right[j].obs.ts > p.obs.ts
    requires SeriesOrdered(left + right + [p])
    ensures OfSeries(left + [p] + right, s) == OfSeries(left + right + [p], s)
  {
    hide OfSeries;
    OfSeriesConcat(left + [p], right, s);
    OfSeriesConcat(left, [p], s);
    OfSeriesConcat(left + right, [p], s);
    OfSeriesConcat(left, right, s);
    assert Labelled(p.series, [p.obs]) == [p] by { assert [p.obs][..0] == []; }
    OfLabelled(p.series, [p.obs], s);
    if s == p.series {
      LaterAbsent(left, right, p);
    } else {
      assert OfSeries([p], s) == [];
    }
  }

  /** A point that comes last in time order leaves nothing later of its series. */
  lemma {:induction false} LaterAbsent(left: seq<RawPoint>, right: seq<RawPoint>, p: RawPoint)
    requires forall j :: 0 <= j < |right| ==> right[j].obs.ts > p.obs.ts
    requires SeriesOrdered(left + right + [p])
    ensures OfSeries(right, p.series) == [] && OfSeries([p], p.series) == [p.obs]
  {
    var s := p.series;
    OfSeriesConcat(left + right, [p], s);
    OfSeriesConcat(left, right, s);
    var before, mine := OfSeries(left, s), OfSeries(right, s);
    assert [p][..0] == [];
    LaterMembers(right, s, p.obs.ts);
    assert mine == [] || mine[0].ts > p.obs.ts;
    LastIsLatest(before, mine, p.obs);
  }

  lemma LastIsLatest(before: seq<Obs>, mine: seq<Obs>, o: Obs)
    requires TimeOrdered(before + mine + [o])
    ensures mine == [] || mine[0].ts < o.ts
  {
    var all := before + mine + [o];
    assert all[|all| - 1] == o;
    assert mine == [] || all[|before|] == mine[0];
  }

  lemma {:induction false} LaterMembers(points: seq<RawPoint>, s: SeriesKey, t: int)
    requires forall j :: 0 <= j < |points| ==> points[j].obs.ts > t
    ensures forall j :: 0 <= j < |OfSeries(points, s)| ==> OfSeries(points, s)[j].ts > t
  {
    if points != [] {
      LaterMembers(points[..|points| - 1], s, t);
    }
  }

  lemma {:induction false} PrefixOrdered(points: seq<RawPoint>, i: int)
    requires SeriesOrdered(points) && 0 <= i <= |points|
    ensures SeriesOrdered(points[..i])
  {
    forall s ensures TimeOrdered(OfSeries(points[..i], s)) {
      OfSeriesConcat(points[..i], points[i..], s);
      assert points[..i] + points[i..] == points;
      var all, mine := OfSeries(points, s), OfSeries(points[..i], s);
      assert forall j :: 0 <= j < |mine| ==> all[j] == mine[j];
    }
  }

  // ---- gathering series by series ----------------------------------------------------------------

  /** What has been gathered once the series in `done` are read. */
  ghost predicate Gathered(points: seq<RawPoint>, raw: RawWindow, q: Query, done: set<SeriesKey>) {
    forall s :: OfSeries(points, s) == if s in done then Pick(SeriesOf(raw, s), InRange(q, s)) else []
  }

  lemma GatherSeries(points: seq<RawPoint>, raw: RawWindow, q: Query, done: set<SeriesKey>, s: SeriesKey,
                     entries: seq<Entry>)
    requires Gathered(points, raw, q, done) && s !in done && Matches(q, s)
    requires entries == Before(From(SeriesOf(raw, s), q.start), q.end + 1)
    ensures Gathered(points + Labelled(s, ObserveAll(entries)), raw, q, done + {s})
  {
    hide From, Before, Pick;
    var added := Labelled(s, ObserveAll(entries));
    forall i | 0 <= i < |SeriesOf(raw, s)|
      ensures InRange(q, s)(SeriesOf(raw, s)[i]) ==
              (q.start <= SeriesOf(raw, s)[i].timestamp < q.end + 1 && Every()(SeriesOf(raw, s)[i])) {}
    PickRange(SeriesOf(raw, s), q.start, q.end + 1, Every(), InRange(q, s));
    forall t ensures OfSeries(points + added, t) == if t in done + {s} then Pick(SeriesOf(raw, t), InRange(q, t)) else [] {
      OfSeriesConcat(points, added, t);
      OfLabelled(s, ObserveAll(entries), t);
    }
  }

  lemma GatheredAll(points: seq<RawPoint>, raw: RawWindow, q: Query, done: set<SeriesKey>)
    requires Gathered(points, raw, q, done) && RawOrdered(raw)
    requires forall s :: s in raw && Matches(q, s) ==> s in done
    ensures forall s :: OfSeries(points, s) == Pick(SeriesOf(raw, s), InRange(q, s))
    ensures SeriesOrdered(points)
  {
    hide Pick, OfSeries;
    forall s ensures OfSeries(points, s) == Pick(SeriesOf(raw, s), InRange(q, s)) && TimeOrdered(OfSeries(points, s)) {
      RawOrderedAt(raw, s);
      PickAscending(SeriesOf(raw, s), InRange(q, s));
      if s !in done {
        PickNone(SeriesOf(raw, s), InRange(q, s));
      }
    }
  }

  lemma NothingGathered(raw: RawWindow, q: Query)
    ensures Gathered([], raw, q, {})
  {
  }

  // ---- the last write of every timestamp -----------------------------------------------------------

  /** Point `i` is the last one written for series `s` at time `t`. */
  ghost predicate LastWrite(points: seq<Point>, i: int, s: SeriesKey, t: int) {
    && 0 <= i < |points| && points[i].series == s && points[i].timestamp == t
    && forall j :: i < j < |points| ==> points[j].series != s || points[j].timestamp != t
  }

  /** Word `w` is the last one written for series `s` at time `t`. */
  ghost predicate LastWord(points: seq<Point>, s: SeriesKey, t: int, w: uint64) {
    exists i :: LastWrite(points, i, s, t) && points[i].value == w
  }

  /** The last word written there stands for the real `x`. */
  ghost predicate LastReal(points: seq<Point>, s: SeriesKey, t: int, x: real) {
    exists w :: LastWord(points, s, t, w) && FloatOf(w) == x
  }

  lemma LastWritePush(points: seq<Point>, p: Point, i: int, s: SeriesKey, t: int)
    ensures LastWrite(points + [p], i, s, t) <==>
            if p.series == s && p.timestamp == t then i == |points| else LastWrite(points, i, s, t)
  {
    var after := points + [p];
    assert after[|points|] == p;
    assert forall j :: 0 <= j < |points| ==> after[j] == points[j];
  }

  /** The last-writer-wins map has exactly the written timestamps, each with its last word. */
  ghost predicate HoldsLast(points: seq<Point>, s: SeriesKey, t: int, m: map<int, Entry>) {
    && (t in m <==> exists i :: LastWrite(points, i, s, t))
    && forall i :: LastWrite(points, i, s, t) ==> t in m && m[t].value == points[i].value
  }

  lemma {:induction false} LatestHoldsLast(points: seq<Point>, s: SeriesKey, t: int)
    ensures Ascending(Latest(points, s)) && HoldsLast(points, s, t, ToMap(Latest(points, s)))
  {
    hide ToMap, Upsert, LastWrite;
    if points == [] {
      ToMapEmpty<LabelSet>();
      InBounds(points, s, t);
    } else {
      var init, p := points[..|points| - 1], points[|points| - 1];
      assert points == init + [p];
      LatestHoldsLast(init, s, t);
      LatestPush(init, p, s);
      if p.series == s {
        UpsertUpdatesMap(Latest(init, s), EntryOf(p));
        UpsertKeepsOrder(Latest(init, s), EntryOf(p));
      }
      HoldsPush(init, p, s, t, ToMap(Latest(init, s)));
    }
  }

  lemma HoldsPush(points: seq<Point>, p: Point, s: SeriesKey, t: int, m: map<int, Entry>)
    requires HoldsLast(points, s, t, m)
    ensures HoldsLast(points + [p], s, t, if p.series == s then m[p.timestamp := EntryOf(p)] else m)
  {
    hide LastWrite;
    var after := points + [p];
    forall i ensures LastWrite(after, i, s, t) <==>
                       if p.series == s && p.timestamp == t then i == |points| else LastWrite(points, i, s, t) {
      LastWritePush(points, p, i, s, t);
    }
    InBounds(points, s, t);
    if p.series == s && p.timestamp == t {
      assert LastWrite(after, |points|, s, t);
    } else if t in m {
      var i :| LastWrite(points, i, s, t);
      assert LastWrite(after, i, s, t);
    } else {
      forall i ensures !LastWrite(after, i, s, t) {
        assert !LastWrite(points, i, s, t);
      }
    }
  }

  lemma InBounds(points: seq<Point>, s: SeriesKey, t: int)
    ensures forall i :: LastWrite(points, i, s, t) ==> 0 <= i < |points|
  {
  }

  lemma LatestPush(points: seq<Point>, p: Point, s: SeriesKey)
    ensures Latest(points + [p], s) == if p.series == s then Upsert(Latest(points, s), EntryOf(p)) else Latest(points, s)
  {
    hide Upsert;
    assert (points + [p])[..|points|] == points;
    var es := EntriesFor(points, s);
    assert (es + [EntryOf(p)])[..|es|] == es;
  }

  // ---- which points an answer holds ------------------------------------------------------------------

  lemma {:induction false} PointOfSeries(points: seq<RawPoint>, s: SeriesKey, o: Obs)
    ensures RawPoint(s, o) in points <==> o in OfSeries(points, s)
  {
    if points != [] {
      PointOfSeries(points[..|points| - 1], s, o);
      assert points == points[..|points| - 1] + [points[|points| - 1]];
    }
  }

  /** A sample picked from a strictly ordered list is the real of its word. */
  lemma PickedAt(v: seq<Entry>, p: Entry -> bool, t: int, x: real)
    requires Ascending(v)
    ensures Obs(t, x) in Pick(v, p) <==> t in ToMap(v) && p(ToMap(v)[t]) && FloatOf(ToMap(v)[t].value) == x
  {
    hide Pick, ToMap, FloatOf;
    ToMapEntries(v);
    if Obs(t, x) in Pick(v, p) {
      PickMembers(v, p);
      var k :| 0 <= k < |Pick(v, p)| && Pick(v, p)[k] == Obs(t, x);
      assert Comes(Pick(v, p)[k], v, p);
      var i :| 0 <= i < |v| && p(v[i]) && Obs(t, x) == Observe(v[i]);
      ToMapAt(v, v[i]);
    }
    if t in ToMap(v) && p(ToMap(v)[t]) {
      var e := ToMap(v)[t];
      var i :| 0 <= i < |v| && v[i] == e;
      PickContains(v, p, i);
    }
  }

  /** The samples of the window are the last words written at or after its start. */
  lemma WindowHolds(steps: seq<Step>, s: SeriesKey, t: int, p: Entry -> bool, x: real)
    requires LegalRun(steps) && forall e: Entry :: e.timestamp == t ==> p(e)
    ensures Obs(t, x) in Pick(SeriesOf(Run(steps).raw, s), p) <==>
            WindowStart(steps) <= t
            && LastReal(Written(steps), s, t, x)
  {
    hide Pick, ToMap, FloatOf, Latest, LegalRun, Run, WindowStart, LastWord, From;
    var points, start := Written(steps), WindowStart(steps);
    var whole, v := Latest(points, s), SeriesOf(Run(steps).raw, s);
    WindowSeries(steps, s);
    LatestHoldsLast(points, s, t);
    FromRestrictsMap(whole, start);
    PickedAt(v, p, t, x);
    ToMapEntries(v);
    WordsHeld(points, s, t, ToMap(whole));
    OneLastWord(points, s, t);
  }

  lemma WordsHeld(points: seq<Point>, s: SeriesKey, t: int, m: map<int, Entry>)
    requires HoldsLast(points, s, t, m)
    ensures t in m ==> LastWord(points, s, t, m[t].value)
    ensures (exists w :: LastWord(points, s, t, w)) ==> t in m
  {
    hide LastWrite;
    if t in m {
      var i :| LastWrite(points, i, s, t);
    }
  }

  lemma OneLastWord(points: seq<Point>, s: SeriesKey, t: int)
    ensures forall v, w :: LastWord(points, s, t, v) && LastWord(points, s, t, w) ==> v == w
  {
    forall v, w | LastWord(points, s, t, v) && LastWord(points, s, t, w) ensures v == w {
      var i :| LastWrite(points, i, s, t) && points[i].value == v;
      var j :| LastWrite(points, j, s, t) && points[j].value == w;
      assert i == j;
    }
  }

  lemma WindowSeries(steps: seq<Step>, s: SeriesKey)
    requires LegalRun(steps)
    ensures SeriesOf(Run(steps).raw, s) == From(Latest(Written(steps), s), WindowStart(steps))
  {
    hide LegalRun, Run, Accounts, Latest, From;
    RunGood(steps);
  }

  /** A raw answer holds a point exactly when its series matches, its time is in range and inside the
      window, and its value is the real of the last word written there. */
  lemma RawAnswerHolds(steps: seq<Step>, q: Query, points: seq<RawPoint>, s: SeriesKey, t: int, x: real)
    requires LegalRun(steps) && RawQuery(points, Run(steps).raw, q)
    ensures RawPoint(s, Obs(t, x)) in points <==>
            s.metricName == q.metricName && (q.entities == {} || s.entityID in q.entities) && q.tagsMatch(s.tagsHash)
            && q.start <= t <= q.end && WindowStart(steps) <= t
            && LastReal(Written(steps), s, t, x)
  {
    hide Pick, FloatOf, LegalRun, Run, WindowStart, LastWord, OfSeries, Sorted;
    PointOfSeries(points, s, Obs(t, x));
    var v := SeriesOf(Run(steps).raw, s);
    if Matches(q, s) && q.start <= t <= q.end {
      WindowHolds(steps, s, t, InRange(q, s), x);
    } else {
      PickedInRange(v, q, s, Obs(t, x));
    }
  }

  lemma PickedInRange(v: seq<Entry>, q: Query, s: SeriesKey, o: Obs)
    ensures o in Pick(v, InRange(q, s)) ==> Matches(q, s) && q.start <= o.ts <= q.end
  {
    hide Pick, FloatOf, Matches;
    PickMembers(v, InRange(q, s));
    if o in Pick(v, InRange(q, s)) {
      var k :| 0 <= k < |Pick(v, InRange(q, s))| && Pick(v, InRange(q, s))[k] == o;
      assert Comes(Pick(v, InRange(q, s))[k], v, InRange(q, s));
    }
  }

  /** After the clock has reached `now` everything of the last ten minutes is still in the window. */
  lemma WindowReaches(steps: seq<Step>, now: int)
    requires LegalRun(steps) && LastTime(steps) <= now
    ensures WindowStart(steps) <= now - 600_000
  {
    hide LegalRun, Run, Accounts, Latest, From;
    RunGood(steps);
  }

  // ---- an answer exists ------------------------------------------------------------------------------

  lemma InsertedInOrder(sorted: seq<RawPoint>, p: RawPoint) returns (result: seq<RawPoint>)
    requires Sorted(sorted) && SeriesOrdered(sorted + [p])
    ensures Sorted(result) && forall s :: OfSeries(result, s) == OfSeries(sorted + [p], s)
  {
    hide OfSeries, SeriesOrdered;
    var i := |sorted|;
    while i > 0 && sorted[i - 1].obs.ts > p.obs.ts
      invariant 0 <= i <= |sorted|
      invariant forall j :: i <= j < |sorted| ==> sorted[j].obs.ts > p.obs.ts
    {
      i := i - 1;
    }
    result := sorted[..i] + [p] + sorted[i..];
    InsertKeepsSeries(sorted, i, p);
  }

  lemma {:induction false} SortedExists(points: seq<RawPoint>) returns (sorted: seq<RawPoint>)
    requires SeriesOrdered(points)
    ensures Sorted(sorted) && forall s :: OfSeries(sorted, s) == OfSeries(points, s)
  {
    hide OfSeries;
    if points == [] {
      return [];
    }
    var init, p := points[..|points| - 1], points[|points| - 1];
    assert points == init + [p];
    PrefixOrdered(points, |init|);
    var rest := SortedExists(init);
    forall s ensures OfSeries(rest + [p], s) == OfSeries(points, s) {
      OfSeriesConcat(rest, [p], s);
      OfSeriesConcat(init, [p], s);
    }
    sorted := InsertedInOrder(rest, p);
  }

  lemma AnyRawAnswer(raw: RawWindow, q: Query) returns (points: seq<RawPoint>)
    requires RawOrdered(raw)
    ensures RawQuery(points, raw, q)
  {
    hide Pick, From, Before, Gathered, OfSeries, Matches, RawOrdered;
    points := [];
    var left, done := raw.Keys, {};
    NothingGathered(raw, q);
    while left != {}
      invariant left <= raw.Keys && left !! done
      invariant forall s :: s in raw && Matches(q, s) ==> s in left || s in done
      invariant Gathered(points, raw, q, done)
      decreases left
    {
      var s :| s in left;
      if Matches(q, s) {
        var entries := Before(From(SeriesOf(raw, s), q.start), q.end + 1);
        GatherSeries(points, raw, q, done, s, entries);
        points := points + Labelled(s, ObserveAll(entries));
        done := done + {s};
      }
      left := left - {s};
    }
    GatheredAll(points, raw, q, done);
    points := SortedExists(points);
  }

  /** No answer holds two points of one series at one time. */
  lemma {:induction false} PointsDistinct(points: seq<RawPoint>)
    requires SeriesOrdered(points)
    ensures forall i, j :: 0 <= i < j < |points| ==> points[i].series != points[j].series || points[i].obs.ts < points[j].obs.ts
  {
    hide OfSeries;
    if points != [] {
      var last := points[|points| - 1];
      PrefixOrdered(points, |points| - 1);
      PointsDistinct(points[..|points| - 1]);
      forall i | 0 <= i < |points| - 1 && points[i].series == last.series ensures points[i].obs.ts < last.obs.ts {
        BeforeLast(points, i);
      }
    }
  }

  lemma BeforeLast(points: seq<RawPoint>, i: int)
    requires SeriesOrdered(points) && 0 <= i < |points| - 1 && points[i].series == points[|points| - 1].series
    ensures points[i].obs.ts < points[|points| - 1].obs.ts
  {
    var init, last := points[..|points| - 1], points[|points| - 1];
    var mine := OfSeries(init, last.series);
    assert points[i] in init by { assert init[i] == points[i]; }
    PointOfSeries(init, last.series, points[i].obs);
    var k :| 0 <= k < |mine| && mine[k] == points[i].obs;
    var all := OfSeries(points, last.series);
    assert all == mine + [last.obs];
    assert all[k] == mine[k] && all[|mine|] == last.obs;
    assert TimeOrdered(all);
  }

  lemma RawAnswerOrdered(raw: RawWindow, q: Query, points: seq<RawPoint>)
    requires RawQuery(points, raw, q) && RawOrdered(raw)
    ensures SeriesOrdered(points)
  {
    hide Pick, OfSeries;
    forall s ensures TimeOrdered(OfSeries(points, s)) {
      RawOrderedAt(raw, s);
      PickAscending(SeriesOf(raw, s), InRange(q, s));
    }
  }

  // ---- a group with a single sample --------------------------------------------------------------------

  /** Series `s` at time `t`, last written as `w`, is the only sample that a query puts into its group. */
  ghost predicate OnlyWrite(points: seq<Point>, q: Query, preserve: bool, s: SeriesKey, t: int, w: uint64)
    requires q.interval > 0
  {
    && LastWord(points, s, t, w) && Asked(q, s) && q.start <= t <= q.end
    && forall u, r, v ::
         (LastWord(points, u, r, v) && Asked(q, u) && (preserve ==> u == s) && q.start <= r <= q.end
          && BucketStart(r, q.interval) == BucketStart(t, q.interval)) ==> u == s && r == t
  }

  predicate Asked(q: Query, s: SeriesKey) {
    s.metricName == q.metricName && (q.entities == {} || s.entityID in q.entities) && q.tagsMatch(s.tagsHash)
  }

  lemma {:induction false} OnlyMember(points: seq<RawPoint>, interval: int, g: GroupKey, o: Obs)
    requires interval > 0 && TimeOrdered(Members(points, interval, g))
    requires RawPoint(g.series, o) in points && BucketStart(o.ts, interval) == g.bucket
    requires forall k :: 0 <= k < |points| && points[k].series == g.series ==>
               BucketStart(points[k].obs.ts, interval) == g.bucket ==> points[k].obs == o
    ensures Members(points, interval, g) == [o]
  {
    hide Members, BucketStart;
    var members := Members(points, interval, g);
    InMembers(points, interval, g);
    assert o in members;
    forall k | 0 <= k < |members| ensures members[k] == o {
      assert members[k] in members;
    }
    assert |members| > 1 ==> members[0].ts < members[1].ts;
  }

  lemma {:induction false} InMembers(points: seq<RawPoint>, interval: int, g: GroupKey)
    requires interval > 0
    ensures forall o :: o in Members(points, interval, g) <==>
              RawPoint(g.series, o) in points && BucketStart(o.ts, interval) == g.bucket
  {
    hide GroupFor, BucketStart;
    if points != [] {
      var init, p := points[..|points| - 1], points[|points| - 1];
      InMembers(init, interval, g);
      GroupIsBucket(p, interval);
      assert points == init + [p];
    }
  }

  lemma {:induction false} OnlyOutput(points: seq<RawPoint>, interval: int, bucket: int, p: RawPoint)
    requires forall k :: 0 <= k < |points| && BucketStart(points[k].obs.ts, interval) == bucket ==> points[k] == p
    requires forall i, j :: 0 <= i < j < |points| ==> points[i] != points[j]
    requires BucketStart(p.obs.ts, interval) == bucket
    ensures InOutput(points, interval, bucket) == if p in points then [p.obs] else []
  {
    hide BucketStart;
    if points != [] {
      var init, last := points[..|points| - 1], points[|points| - 1];
      assert points == init + [last];
      OnlyOutput(init, interval, bucket, p);
      if last == p {
        assert p !in init;
      }
    }
  }

  lemma OneSample(o: Obs, agg: Aggregation)
    requires agg.Avg? || agg.Sum? || agg.Min? || agg.Max? || agg.First? || agg.Last?
    ensures Aggregates([o], agg, o.val)
  {
    assert [o][..0] == [];
    assert SumOf([o]) == o.val;
    assert [o][0] == o;
  }
}
