/** Whole runs of writes and flushes from an empty store: the raw window is the
    last-writer-wins map of everything written, and every minute bucket in it is the
    aggregate of exactly its samples. */
module WindowRuns {
  import opened Words
  import opened Clock
  import opened Timeline
  import opened RawSeries
  import opened Selection
  import opened Rollup
  import opened Window
  import opened WindowSteps
  import opened WindowFlush

  /** `ok` is the outcome of the step's transaction, `order` its iteration over closed buckets. */
  datatype Step =
    | Write(points: seq<Point>, rawNow: int, hotNow: int, ok: bool, order: seq<HotKey>)
    | Flush(now: int, ok: bool, order: seq<HotKey>)

  function StepEnd(step: Step): int {
    match step
    case Write(_, _, hotNow, _, _) => hotNow
    case Flush(now, _, _) => now
  }

  function StepStart(step: Step): int {
    match step
    case Write(_, rawNow, _, _, _) => rawNow
    case Flush(now, _, _) => now
  }

  /** The state between the two halves of a step: raw and hot are updated, nothing is flushed. */
  function Middle(st: State, step: Step): State {
    match step
    case Write(points, rawNow, _, _, _) => if points == [] then st else Ingest(st, points, rawNow)
    case Flush(now, _, _) => st.(raw := Trim(st.raw, RawCutoff(now)))
  }

  /** A write of no points returns at once. */
  predicate Idle(step: Step) {
    step.Write? && step.points == []
  }

  function Do(st: State, step: Step): State {
    if Idle(step) then st else FlushHot(Middle(st, step), StepEnd(step), step.ok, step.order)
  }

  /** The buckets a step takes out of the hot table, and those its transaction makes rows of. */
  function ClosedBy(st: State, step: Step): Buckets {
    if Idle(step) then map[] else ClosedBuckets(Middle(st, step).hot, StepEnd(step))
  }

  function CommittedBy(st: State, step: Step): Buckets {
    if step.ok then ClosedBy(st, step) else map[]
  }

  /** A step fails when it has something to commit and cannot. */
  predicate Succeeds(st: State, step: Step) {
    step.ok || ClosedBy(st, step) == map[]
  }

  /** Clocks do not run backwards, within a step or between steps. */
  ghost predicate Legal(st: State, last: int, step: Step) {
    && last <= StepStart(step) <= StepEnd(step)
    && ClockInRange(StepStart(step)) && ClockInRange(StepEnd(step))
    && Enumerates(step.order, ClosedKeys(Middle(st, step).hot, StepEnd(step)))
  }

  function Run(steps: seq<Step>): State {
    if steps == [] then START else Do(Run(steps[..|steps| - 1]), steps[|steps| - 1])
  }

  function LastTime(steps: seq<Step>): int {
    if steps == [] then 0 else StepEnd(steps[|steps| - 1])
  }

  ghost predicate LegalRun(steps: seq<Step>) {
    steps == [] ||
    (LegalRun(steps[..|steps| - 1])
     && Legal(Run(steps[..|steps| - 1]), LastTime(steps[..|steps| - 1]), steps[|steps| - 1]))
  }

  /** When the raw window was last trimmed. */
  function TrimTime(steps: seq<Step>): int {
    if steps == [] then 0
    else if Idle(steps[|steps| - 1]) then TrimTime(steps[..|steps| - 1])
    else StepStart(steps[|steps| - 1])
  }

  function WindowStart(steps: seq<Step>): int {
    RawCutoff(TrimTime(steps))
  }

  // ---- iteration orders ----------------------------------------------------------------------------

  ghost function AnyOrder(hot: Buckets, now: int): (order: seq<HotKey>)
    ensures Enumerates(order, ClosedKeys(hot, now))
  {
    EnumerationExists(ClosedKeys(hot, now));
    var order :| Enumerates(order, ClosedKeys(hot, now));
    order
  }

  lemma EnumerationExists(keys: set<HotKey>)
    ensures exists order :: Enumerates(order, keys)
  {
    var order: seq<HotKey>, left := [], keys;
    while left != {}
      invariant left <= keys && Enumerates(order, keys - left)
      decreases left
    {
      var k :| k in left;
      order := order + [k];
      left := left - {k};
    }
    assert keys - left == keys;
  }

  // ---- what was written ------------------------------------------------------------------------

  function Written(steps: seq<Step>): seq<Point> {
    if steps == [] then []
    else
      var last := steps[|steps| - 1];
      Written(steps[..|steps| - 1]) + (if last.Write? then last.points else [])
  }

  function EntriesFor(points: seq<Point>, s: SeriesKey): seq<Entry> {
    if points == [] then []
    else
      var rest, p := EntriesFor(points[..|points| - 1], s), points[|points| - 1];
      if p.series == s then rest + [EntryOf(p)] else rest
  }

  /** Last writer wins over the whole history of one series. */
  function Latest(points: seq<Point>, s: SeriesKey): seq<Entry> {
    UpsertAll([], EntriesFor(points, s))
  }

  // ---- the raw window is the history restricted to the window ---------------------------------------

  lemma {:induction false} FromFrom<L>(s: seq<Sample<L>>, a: int, b: int)
    requires a <= b
    ensures From(From(s, a), b) == From(s, b)
    ensures From(Before(s, a), b) == []
    ensures From(Before(s, b), a) == Before(From(s, a), b)
  {
    if s != [] {
      var init, x := s[..|s| - 1], s[|s| - 1];
      FromFrom(init, a, b);
      FilterLast(s, a);
      FilterLast(s, b);
      FilterPush(From(init, a), x, b);
      FilterPush(Before(init, a), x, b);
      FilterPush(Before(init, b), x, a);
    }
  }

  lemma FilterPush<L>(s: seq<Sample<L>>, x: Sample<L>, t: int)
    ensures From(s + [x], t) == if x.timestamp < t then From(s, t) else From(s, t) + [x]
    ensures Before(s + [x], t) == if x.timestamp < t then Before(s, t) + [x] else Before(s, t)
  {
    assert (s + [x])[..|s|] == s;
  }

  /** Trimming commutes with an upsert inside the window and swallows one before it. */
  lemma FromUpsert<L>(s: seq<Sample<L>>, e: Sample<L>, c: int)
    ensures From(Upsert(s, e), c) == if e.timestamp >= c then Upsert(From(s, c), e) else From(s, c)
  {
    hide From, Before;
    var t: int := e.timestamp;
    FilterConcat(Before(s, t) + [e], From(s, t + 1), c);
    FilterConcat(Before(s, t), [e], c);
    if t >= c {
      AllFrom([e], c);
      FromFrom(s, c, t);
      FromFrom(s, c, t + 1);
      AllFrom(From(s, t + 1), c) by { FromBounds(s, t + 1); }
    } else {
      AllBefore([e], c);
      FromFrom(s, t, c);
      FromFrom(s, t + 1, c);
    }
  }

  lemma {:induction false} FromBounds<L>(s: seq<Sample<L>>, t: int)
    ensures forall i :: 0 <= i < |From(s, t)| ==> From(s, t)[i].timestamp >= t
  {
    if s != [] {
      FromBounds(s[..|s| - 1], t);
    }
  }

  lemma {:induction false} UpsertAllConcat<L>(s: seq<Sample<L>>, a: seq<Sample<L>>, b: seq<Sample<L>>)
    ensures UpsertAll(s, a + b) == UpsertAll(UpsertAll(s, a), b)
  {
    if b == [] {
      assert a + b == a;
    } else {
      assert (a + b)[..|a + b| - 1] == a + b[..|b| - 1];
      UpsertAllConcat(s, a, b[..|b| - 1]);
    }
  }

  lemma {:induction false} EntriesConcat(a: seq<Point>, b: seq<Point>, s: SeriesKey)
    ensures EntriesFor(a + b, s) == EntriesFor(a, s) + EntriesFor(b, s)
  {
    if b == [] {
      assert a + b == a;
    } else {
      assert (a + b)[..|a + b| - 1] == a + b[..|b| - 1];
      EntriesConcat(a, b[..|b| - 1], s);
    }
  }

  lemma {:induction false} PutAllSeries(raw: RawWindow, points: seq<Point>, cutoff: int, s: SeriesKey, whole: seq<Entry>)
    requires SeriesOf(raw, s) == From(whole, cutoff)
    ensures SeriesOf(PutAll(raw, points, cutoff), s) == From(UpsertAll(whole, EntriesFor(points, s)), cutoff)
  {
    hide From, Upsert;
    if points != [] {
      var init, p := points[..|points| - 1], points[|points| - 1];
      PutAllSeries(raw, init, cutoff, s, whole);
      if p.series == s {
        var es := EntriesFor(init, s);
        assert (es + [EntryOf(p)])[..|es|] == es;
        FromUpsert(UpsertAll(whole, es), EntryOf(p), cutoff);
      }
    }
  }

  // ---- the invariant of every run -------------------------------------------------------------------

  ghost predicate Good(st: State, written: seq<Point>, trimmed: int, now: int) {
    && trimmed <= now
    && RawOrdered(st.raw)
    && AllWellFormed(st.hot) && AllWellFormed(st.rows) && st.replace <= st.hot.Keys
    && PendingNonEmpty(st.hot, st.replace) && RowsNonEmpty(st.rows)
    && (forall s :: SeriesOf(st.raw, s) == From(Latest(written, s), RawCutoff(trimmed)))
    && (forall k: HotKey :: k.bucket >= RawCutoff(trimmed) && k.bucket >= 0 ==> Accounts(st, k))
    && (forall k :: k in st.rows ==> k.bucket < BucketStart(now, MINUTE))
  }

  /** Only a rebuilt bucket may be empty while it is pending, and no stored row ever is. */
  ghost predicate PendingNonEmpty(hot: Buckets, replace: set<HotKey>) {
    forall k :: k in hot && k !in replace ==> hot[k].count > 0
  }

  ghost predicate RowsNonEmpty(rows: Buckets) {
    forall k :: k in rows ==> rows[k].count > 0
  }

  lemma StartGood()
    ensures Good(START, [], 0, 0)
  {
    forall k: HotKey ensures Accounts(START, k) {
      EmptyPart([], InPart(k, {}, true));
      EmptyPart([], InPart(k, {}, false));
    }
  }

  lemma {:induction false} AddHotAllWellFormed(hot: Buckets, points: seq<Point>, replace: set<HotKey>)
    requires AllWellFormed(hot) && PendingNonEmpty(hot, replace)
    ensures AllWellFormed(AddHotAll(hot, points)) && hot.Keys <= AddHotAll(hot, points).Keys
    ensures PendingNonEmpty(AddHotAll(hot, points), replace)
  {
    if points != [] {
      var init, p := points[..|points| - 1], points[|points| - 1];
      AddHotAllWellFormed(hot, init, replace);
      AddPointIsMerge(BucketOf(AddHotAll(hot, init), KeyOf(p)), Observe(EntryOf(p)));
    }
  }

  lemma IngestShape(st: State, points: seq<Point>, now: int)
    requires RawOrdered(st.raw) && AllWellFormed(st.hot) && st.replace <= st.hot.Keys
    requires PendingNonEmpty(st.hot, st.replace)
    ensures PendingNonEmpty(Ingest(st, points, now).hot, Ingest(st, points, now).replace)
    ensures RawOrdered(Ingest(st, points, now).raw) && AllWellFormed(Ingest(st, points, now).hot)
    ensures Ingest(st, points, now).replace <= Ingest(st, points, now).hot.Keys
  {
    hide AddHotAll, PutAll, RebuildKeys, Trim;
    TrimKeepsOrder(st.raw, RawCutoff(now));
    BatchKeepsOrder(Trim(st.raw, RawCutoff(now)), points, RawCutoff(now));
    AddHotAllWellFormed(st.hot, points, st.replace);
  }

  lemma IngestHistory(st: State, points: seq<Point>, now: int, written: seq<Point>, trimmed: int, s: SeriesKey)
    requires trimmed <= now && SeriesOf(st.raw, s) == From(Latest(written, s), RawCutoff(trimmed))
    ensures SeriesOf(Ingest(st, points, now).raw, s) == From(Latest(written + points, s), RawCutoff(now))
  {
    hide From, Trim, PutAll, UpsertAll, EntriesFor;
    TrimHistory(st.raw, now, written, trimmed, s);
    PutAllSeries(Trim(st.raw, RawCutoff(now)), points, RawCutoff(now), s, Latest(written, s));
    EntriesConcat(written, points, s);
    UpsertAllConcat([], EntriesFor(written, s), EntriesFor(points, s));
  }

  lemma TrimHistory(raw: RawWindow, now: int, written: seq<Point>, trimmed: int, s: SeriesKey)
    requires trimmed <= now && SeriesOf(raw, s) == From(Latest(written, s), RawCutoff(trimmed))
    ensures SeriesOf(Trim(raw, RawCutoff(now)), s) == From(Latest(written, s), RawCutoff(now))
  {
    hide From;
    BucketMonotone(trimmed - RAW_RETENTION, now - RAW_RETENTION, MINUTE);
    TrimSeries(raw, RawCutoff(now), s);
    FromFrom(Latest(written, s), RawCutoff(trimmed), RawCutoff(now));
  }

  lemma MiddleGood(st: State, step: Step, written: seq<Point>, trimmed: int, last: int)
    requires Good(st, written, trimmed, last) && Legal(st, last, step) && !Idle(step)
    ensures Good(Middle(st, step), written + (if step.Write? then step.points else []), StepStart(step), StepStart(step))
  {
    hide Accounts, Ingest, From, Latest, Trim;
    var now := StepStart(step);
    var mid := Middle(st, step);
    BucketMonotone(trimmed - RAW_RETENTION, now - RAW_RETENTION, MINUTE);
    BucketMonotone(last, now, MINUTE);
    match step
    case Write(points, rawNow, _, _, _) =>
      IngestShape(st, points, rawNow);
      IngestRows(st, points, rawNow);
      forall s ensures SeriesOf(mid.raw, s) == From(Latest(written + points, s), RawCutoff(now)) {
        IngestHistory(st, points, rawNow, written, trimmed, s);
      }
      forall k: HotKey | k.bucket >= RawCutoff(now) && k.bucket >= 0 ensures Accounts(mid, k) {
        IngestKeepsAccount(st, points, rawNow, k);
      }
    case Flush(_, _, _) =>
      assert written + [] == written;
      TrimKeepsOrder(st.raw, RawCutoff(now));
      forall s ensures SeriesOf(mid.raw, s) == From(Latest(written, s), RawCutoff(now)) {
        TrimHistory(st.raw, now, written, trimmed, s);
      }
      forall k: HotKey | k.bucket >= RawCutoff(now) && k.bucket >= 0 ensures Accounts(mid, k) {
        TrimKeepsAccount(st, k, RawCutoff(now));
      }
  }

  lemma IngestRows(st: State, points: seq<Point>, now: int)
    ensures Ingest(st, points, now).rows == st.rows && Ingest(st, points, now).flushed == st.flushed
  {
  }

  lemma FlushGood(st: State, written: seq<Point>, trimmed: int, last: int, now: int, ok: bool, order: seq<HotKey>)
    requires Good(st, written, trimmed, last) && last <= now && ClockInRange(now)
    requires Enumerates(order, ClosedKeys(st.hot, now))
    ensures Good(FlushHot(st, now, ok, order), written, trimmed, now)
  {
    hide Accounts, MergePass, ReplacePass, From, Latest, StampsOf;
    BucketMonotone(last, now, MINUTE);
    FlushSeparates(st, now, order);
    FlushWellFormed(st, now, ok, order);
    forall k: HotKey | k.bucket >= RawCutoff(trimmed) && k.bucket >= 0 ensures Accounts(FlushHot(st, now, ok, order), k) {
      FlushKeepsAccount(st, now, ok, order, k);
    }
  }

  lemma {:induction false} MergePassWellFormed(rows: Buckets, hot: Buckets, replace: set<HotKey>, order: seq<HotKey>)
    requires AllWellFormed(rows) && AllWellFormed(hot)
    requires RowsNonEmpty(rows) && PendingNonEmpty(hot, replace)
    requires forall i :: 0 <= i < |order| ==> order[i] in hot
    ensures AllWellFormed(MergePass(rows, hot, replace, order)) && RowsNonEmpty(MergePass(rows, hot, replace, order))
  {
    hide Merge;
    if order != [] {
      var init, last := order[..|order| - 1], order[|order| - 1];
      MergePassWellFormed(rows, hot, replace, init);
      MergeWellFormed(BucketOf(MergePass(rows, hot, replace, init), StoredKey(last)), BucketOf(hot, last));
    }
  }

  lemma {:induction false} ReplacePassNonEmpty(rows: Buckets, hot: Buckets, replace: set<HotKey>, order: seq<HotKey>)
    requires RowsNonEmpty(rows) && AllWellFormed(hot)
    ensures RowsNonEmpty(ReplacePass(rows, hot, replace, order))
  {
    if order != [] {
      ReplacePassNonEmpty(rows, hot, replace, order[..|order| - 1]);
    }
  }

  lemma FlushWellFormed(st: State, now: int, ok: bool, order: seq<HotKey>)
    requires AllWellFormed(st.hot) && AllWellFormed(st.rows) && st.replace <= st.hot.Keys
    requires PendingNonEmpty(st.hot, st.replace) && RowsNonEmpty(st.rows)
    requires Enumerates(order, ClosedKeys(st.hot, now))
    ensures PendingNonEmpty(FlushHot(st, now, ok, order).hot, FlushHot(st, now, ok, order).replace)
    ensures RowsNonEmpty(FlushHot(st, now, ok, order).rows)
    ensures AllWellFormed(FlushHot(st, now, ok, order).hot) && AllWellFormed(FlushHot(st, now, ok, order).rows)
    ensures FlushHot(st, now, ok, order).replace <= FlushHot(st, now, ok, order).hot.Keys
  {
    hide MergePass, ReplacePass;
    MergePassWellFormed(st.rows, st.hot, st.replace, order);
    ReplacePassNonEmpty(MergePass(st.rows, st.hot, st.replace, order), st.hot, st.replace, order);
    var k := HotKey(SeriesKey("", "", ""), "", 0);
    ReplacePassRow(MergePass(st.rows, st.hot, st.replace, order), st.hot, st.replace, order, k);
  }

  /** Safety over whole runs: the invariant holds after any legal run, whichever
      transactions failed. */
  lemma {:induction false} RunGood(steps: seq<Step>)
    requires LegalRun(steps)
    ensures Good(Run(steps), Written(steps), TrimTime(steps), LastTime(steps))
  {
    hide Good, Middle, FlushHot;
    if steps == [] {
      StartGood();
    } else {
      var init, last := steps[..|steps| - 1], steps[|steps| - 1];
      RunGood(init);
      if Idle(last) {
        assert Written(steps) == Written(init);
        LaterGood(Run(init), Written(init), TrimTime(init), LastTime(init), StepEnd(last));
      } else {
        MiddleGood(Run(init), last, Written(init), TrimTime(init), LastTime(init));
        FlushGood(Middle(Run(init), last), Written(steps), StepStart(last), StepStart(last), StepEnd(last), last.ok, last.order);
      }
    }
  }

  lemma LaterGood(st: State, written: seq<Point>, trimmed: int, last: int, now: int)
    requires Good(st, written, trimmed, last) && last <= now
    ensures Good(st, written, trimmed, now)
  {
    hide Accounts, Latest, From;
    BucketMonotone(last, now, MINUTE);
  }

  // ---- main results -----------------------------------------------------------------------------------

  /** The raw window is exactly the last-writer-wins map of every point ever written,
      restricted to the window, in strictly ascending time order. */
  lemma RawWindowIsLatest(steps: seq<Step>, s: SeriesKey)
    requires LegalRun(steps)
    ensures var v := SeriesOf(Run(steps).raw, s);
            var all := ToMap(EntriesFor(Written(steps), s));
            && Ascending(v)
            && ToMap(v) == map t | t in all && t >= WindowStart(steps) :: all[t]
  {
    hide Accounts, From, ToMap, EntriesFor, UpsertAll;
    RunGood(steps);
    ToMapEmpty<LabelSet>();
    UpsertAllKeepsOrder([], EntriesFor(Written(steps), s));
    FromRestrictsMap(Latest(Written(steps), s), WindowStart(steps));
  }

  /** Whatever mix of duplicates, late samples, label changes and failed transactions a run
      contains, row and pending bucket together are the aggregate of the raw minute. */
  lemma MinuteBucketsExact(steps: seq<Step>, k: HotKey)
    requires LegalRun(steps) && k.bucket >= WindowStart(steps) && k.bucket >= 0
    ensures Denote(Run(steps), k) == Summarize(From(Latest(Written(steps), k.series), WindowStart(steps)), InKey(k))
    ensures Denote(Run(steps), k) == Summarize(Latest(Written(steps), k.series), InKey(k))
  {
    hide Accounts, From, Latest, Summarize;
    RunGood(steps);
    var st, v := Run(steps), Latest(Written(steps), k.series);
    AccountsDenotes(st, k) by { RawOrderedAt(st.raw, k.series); }
    TrimKeepsSummary(v, WindowStart(steps), k, InKey(k));
  }

  lemma RawOrderedAt(raw: RawWindow, s: SeriesKey)
    requires RawOrdered(raw)
    ensures Ascending(SeriesOf(raw, s))
  {
  }

  ghost predicate AllCommitted(steps: seq<Step>) {
    forall i :: 0 <= i < |steps| ==> steps[i].ok
  }

  /** With successful transactions no bucket is both pending and stored between calls,
      so in particular no replace-mode bucket has a row a reader could add it to. */
  lemma {:induction false} PendingApartFromStored(steps: seq<Step>)
    requires LegalRun(steps) && AllCommitted(steps)
    ensures forall k :: !(k in Run(steps).hot && k in Run(steps).rows)
    ensures forall k :: !(k in Run(steps).replace && k in Run(steps).rows)
  {
    hide Accounts, Latest, From, Middle, MergePass, ReplacePass;
    RunGood(steps);
    if steps != [] {
      var init, last := steps[..|steps| - 1], steps[|steps| - 1];
      PendingApartFromStored(init);
      if !Idle(last) {
        RunGood(init);
        MiddleGood(Run(init), last, Written(init), TrimTime(init), LastTime(init));
        var mid := Middle(Run(init), last);
        BucketMonotone(StepStart(last), StepEnd(last), MINUTE);
        FlushSeparates(mid, StepEnd(last), last.order);
      }
    }
  }
}
