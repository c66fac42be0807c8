/** All layers together: a write or flush commits minute rows, stages them under their coarse
    parents and seals the parents that are due. */
module Pipeline {
  import opened Words
  import opened Clock
  import opened Timeline
  import opened RawSeries
  import opened Selection
  import opened Rollup
  import opened Window
  import opened WindowSteps
  import opened WindowFlush
  import opened WindowRuns
  import opened WindowHistory
  import opened CoarseSpec
  import opened Staging
  import opened RawTable
  import Coarse
  import CoarseInvariant
  import CoarseSteps
  import Store

  /** When the last step that did anything ended. */
  function ActiveTime(steps: seq<Step>): int {
    if steps == [] then 0
    else if Idle(steps[|steps| - 1]) then ActiveTime(steps[..|steps| - 1])
    else StepEnd(steps[|steps| - 1])
  }

  class MetricStore {
    const minutes: Store.Store
    const coarse: Coarse.CoarseTable

    ghost predicate Valid()
      reads this, minutes, minutes.table, Footprint(minutes.table.raw), coarse
    {
      && minutes.Valid() && coarse.Valid()
      && coarse.clock <= ActiveTime(minutes.history) <= LastTime(minutes.history)
      && coarse.staged == StagedBy(coarse.ladders, minutes.history)
    }

    constructor (minutes: Store.Store, coarse: Coarse.CoarseTable)
      requires minutes.Valid() && minutes.history == []
      requires coarse.Valid() && coarse.staged == map[] && coarse.clock == 0
      ensures Valid() && this.minutes == minutes && this.coarse == coarse
    {
      this.minutes, this.coarse := minutes, coarse;
    }

    /** Stages the buckets a flush has committed, metric by metric. */
    method StageCommitted(committed: Buckets, now: int)
      requires coarse.Valid() && coarse.clock <= now && GRACE <= now
      requires forall m :: m in committed ==> m.bucket % MINUTE == 0 && WellFormed(committed[m])
      modifies coarse`parents, coarse`staged, coarse`clock
      ensures coarse.Valid() && coarse.clock <= now
      ensures coarse.staged == Coarse.Restaged(old(coarse.staged), HandedOver(coarse.ladders, committed, now))
    {
      hide Coarse.Restaged, HandedOver, Coarse.Handed, WellFormed;
      var left := set m | m in committed :: m.series.metricName;
      ghost var names := left;
      NothingHandedOver(coarse.ladders, coarse.staged, committed, now);
      while left != {}
        invariant left <= names && coarse.Valid() && coarse.clock <= now
        invariant coarse.staged ==
                  Coarse.Restaged(old(coarse.staged), HandedOver(coarse.ladders, OfMetrics(committed, names - left), now))
        decreases left
      {
        var name :| name in left;
        var minute := map m | m in committed && m.series.metricName == name :: committed[m];
        ghost var staged := coarse.staged;
        coarse.AddMinuteParents(name, minute, now);
        OneMoreMetric(coarse.ladders, old(coarse.staged), committed, names - left, name, now);
        assert names - (left - {name}) == (names - left) + {name};
        left := left - {name};
      }
      assert names - left == names;
      AllMetrics(committed, names);
    }

    /** Writes one batch; fails when its minutes, or the parents that are due, cannot be stored. */
    method WriteBatch(points: seq<Point>, rawNow: int, hotNow: int, commit: bool,
                      policyRead: int -> bool, coarseCommit: int -> bool) returns (ok: bool, ghost order: seq<HotKey>)
      requires Valid() && LastTime(minutes.history) <= rawNow <= hotNow && ClockInRange(rawNow) && ClockInRange(hotNow)
      requires minutes.table.HasRoom(|points|)
      requires forall i :: 0 <= i < |points| ==> points[i].labelsJSON == minutes.table.jsonOf(points[i].labelsHash)
      requires LevelsKnown(coarse)
      modifies minutes, minutes.table, Footprint(minutes.table.raw), coarse
      ensures Valid() && minutes.history == old(minutes.history) + [Step.Write(points, rawNow, hotNow, commit, order)]
      ensures ok && points != [] ==> NothingDue(coarse, hotNow)
      ensures commit && (forall i :: policyRead(i) && coarseCommit(i)) ==> ok
    {
      hide StagedBy, NothingDue, LevelsKnown, Coarse.Restaged, HandedOver, WellFormed, Run, Store.Store.Valid,
           Coarse.CoarseTable.Valid, CommittedBy, Succeeds;
      ghost var steps := minutes.history;
      CoarseApart(coarse, minutes.table.raw);
      var done, committed;
      done, committed, order := minutes.WriteBatch(points, rawNow, hotNow, commit);
      CoarseApart(coarse, minutes.table.raw);
      HistoryLegal(minutes);
      StepStaged(coarse.ladders, steps, Step.Write(points, rawNow, hotNow, commit, order));
      if |points| == 0 {
        return true, order;
      }
      if !done {
        return false, order;
      }
      ok := StageAndSeal(committed, hotNow, policyRead, coarseCommit);
    }

    /** The coarse half of a write. */
    method StageAndSeal(committed: Buckets, now: int, policyRead: int -> bool, coarseCommit: int -> bool) returns (ok: bool)
      requires coarse.Valid() && coarse.clock <= now && GRACE <= now <= NORMALIZE_LIMIT && LevelsKnown(coarse)
      requires forall m :: m in committed ==> m.bucket % MINUTE == 0 && WellFormed(committed[m])
      modifies coarse
      ensures coarse.Valid() && coarse.clock == now
      ensures coarse.staged == Coarse.Restaged(old(coarse.staged), HandedOver(coarse.ladders, committed, now))
      ensures ok ==> NothingDue(coarse, now)
      ensures (forall i :: policyRead(i) && coarseCommit(i)) ==> ok
    {
      hide Due, Coarse.Restaged, HandedOver, WellFormed, Coarse.CoarseTable.Valid;
      StageCommitted(committed, now);
      var _, sealed := coarse.FlushClosed(now, policyRead, coarseCommit);
      return sealed;
    }

    /** Flushes closed minutes and stages them, but seals no parents. */
    method Flush(now: int, commit: bool) returns (ok: bool, ghost order: seq<HotKey>)
      requires Valid() && LastTime(minutes.history) <= now && ClockInRange(now)
      modifies minutes, minutes.table, Footprint(minutes.table.raw), coarse
      ensures Valid() && minutes.history == old(minutes.history) + [Step.Flush(now, commit, order)]
      ensures coarse.rows == old(coarse.rows) && (commit ==> ok)
    {
      hide StagedBy, Coarse.Restaged, HandedOver, WellFormed, Run, Store.Store.Valid, Coarse.CoarseTable.Valid,
           CommittedBy, Succeeds;
      ghost var steps := minutes.history;
      CoarseApart(coarse, minutes.table.raw);
      var committed;
      ok, committed, order := minutes.Flush(now, commit);
      CoarseApart(coarse, minutes.table.raw);
      HistoryLegal(minutes);
      StepStaged(coarse.ladders, steps, Step.Flush(now, commit, order));
      if ok {
        StageCommitted(committed, now);
      }
    }
  }

  /** Every parent that ended ten minutes ago or earlier is sealed. */
  ghost predicate NothingDue(coarse: Coarse.CoarseTable, now: int)
    reads coarse
  {
    forall p :: p in coarse.parents ==> p.cell.bucket + p.interval + 600_000 > now
  }

  /** The intervals of all ladders are among finitely many. */
  ghost predicate LevelsKnown(coarse: Coarse.CoarseTable) {
    forall name, i :: 0 <= i < |coarse.ladders(name)| ==> coarse.ladders(name)[i] in coarse.levels
  }

  lemma HistoryLegal(store: Store.Store)
    requires store.Valid()
    ensures LegalRun(store.history)
  {
  }

  // ---- staging metric by metric ------------------------------------------------------------------

  function OfMetrics(minutes: Buckets, names: set<string>): Buckets {
    map m | m in minutes && m.series.metricName in names :: minutes[m]
  }

  lemma NothingHandedOver(ladders: Ladders, staged: Buckets, minutes: Buckets, now: int)
    ensures staged == Coarse.Restaged(staged, HandedOver(ladders, OfMetrics(minutes, {}), now))
    ensures staged == Coarse.Restaged(staged, HandedOver(ladders, map[], now))
  {
  }

  lemma OneMoreMetric(ladders: Ladders, staged: Buckets, minutes: Buckets, names: set<string>, name: string, now: int)
    requires name !in names
    ensures var minute := map m | m in minutes && m.series.metricName == name :: minutes[m];
            Coarse.Restaged(Coarse.Restaged(staged, HandedOver(ladders, OfMetrics(minutes, names), now)),
                            Coarse.Handed(minute, ladders(name), now))
            == Coarse.Restaged(staged, HandedOver(ladders, OfMetrics(minutes, names + {name}), now))
  {
    hide Coarse.Eligible, Coarse.Restaged;
    var minute := map m | m in minutes && m.series.metricName == name :: minutes[m];
    var before, more := HandedOver(ladders, OfMetrics(minutes, names), now), Coarse.Handed(minute, ladders(name), now);
    assert HandedOver(ladders, OfMetrics(minutes, names + {name}), now) == before + more;
    assert before.Keys !! more.Keys;
    RestagedTwice(staged, before, more);
  }

  lemma RestagedTwice(staged: Buckets, a: Buckets, b: Buckets)
    ensures Coarse.Restaged(Coarse.Restaged(staged, a), b) == Coarse.Restaged(staged, a + b)
  {
  }

  lemma AllMetrics(minutes: Buckets, names: set<string>)
    requires names == set m | m in minutes :: m.series.metricName
    ensures OfMetrics(minutes, names) == minutes
  {
  }

  /** The coarse table is no part of the raw objects. */
  lemma CoarseApart(coarse: Coarse.CoarseTable, raw: SeriesMap)
    ensures coarse !in Footprint(raw)
  {
  }

  // ---- what a step leaves behind --------------------------------------------------------------------

  lemma {:induction false} AddHotAligned(hot: Buckets, points: seq<Point>)
    requires forall k :: k in hot ==> k.bucket % MINUTE == 0
    ensures forall k :: k in AddHotAll(hot, points) ==> k.bucket % MINUTE == 0
  {
    if points != [] {
      AddHotAligned(hot, points[..|points| - 1]);
    }
  }

  lemma MiddleAligned(st: State, step: Step)
    requires forall k :: k in st.hot ==> k.bucket % MINUTE == 0
    ensures forall k :: k in Middle(st, step).hot ==> k.bucket % MINUTE == 0
  {
    hide AddHotAll, RebuildKeys, PutAll, Trim, MinuteSummary;
    if step.Write? {
      AddHotAligned(st.hot, step.points);
      Store.RebuildKeysAligned(Trim(st.raw, RawCutoff(step.rawNow)), step.points, RawCutoff(step.rawNow), DirectCutoff(step.rawNow));
    }
  }

  /** Pending buckets start on the minute. */
  lemma {:induction false} HotAligned(steps: seq<Step>)
    ensures forall k :: k in Run(steps).hot ==> k.bucket % MINUTE == 0
  {
    hide Middle, MergePass, ReplacePass;
    if steps != [] {
      HotAligned(steps[..|steps| - 1]);
      MiddleAligned(Run(steps[..|steps| - 1]), steps[|steps| - 1]);
    }
  }

  lemma StepStaged(ladders: Ladders, steps: seq<Step>, step: Step)
    requires LegalRun(steps + [step])
    ensures var committed := CommittedBy(Run(steps), step);
            && (forall m :: m in committed ==> m.bucket % MINUTE == 0 && WellFormed(committed[m]))
            && StagedBy(ladders, steps + [step])
               == Coarse.Restaged(StagedBy(ladders, steps), HandedOver(ladders, committed, StepEnd(step)))
            && (committed == map[] ==> StagedBy(ladders, steps + [step]) == StagedBy(ladders, steps))
    ensures ActiveTime(steps + [step]) == if Idle(step) then ActiveTime(steps) else StepEnd(step)
    ensures LastTime(steps + [step]) == StepEnd(step) >= LastTime(steps)
    ensures !Succeeds(Run(steps), step) ==> CommittedBy(Run(steps), step) == map[]
    ensures Idle(step) ==> CommittedBy(Run(steps), step) == map[]
    ensures step.ok ==> Succeeds(Run(steps), step)
  {
    hide Middle, Coarse.Restaged, HandedOver, WellFormed;
    assert (steps + [step])[..|steps|] == steps;
    CommittedWellFormed(steps, step);
    HotAligned(steps);
    MiddleAligned(Run(steps), step);
    NothingHandedOver(ladders, StagedBy(ladders, steps), map[], StepEnd(step));
  }

  // ---- from raw samples to sealed parents -----------------------------------------------------------

  /** Samples of a label set in a span of time. */
  function InSpan(labelsHash: string, lo: int, hi: int): Entry -> bool {
    (e: Entry) => e.labels.hash == labelsHash && lo <= e.timestamp < hi
  }

  lemma MinuteIsSpan(cell: HotKey, b: int, e: Entry)
    requires b % MINUTE == 0
    ensures InKey(CoarseSpec.At(cell, b))(e) <==> e.labels.hash == cell.labelsHash && b <= e.timestamp < b + MINUTE
  {
    if b <= e.timestamp < b + MINUTE {
      MultipleUnique(BucketStart(e.timestamp, MINUTE), b, MINUTE);
    }
  }

  /** Consecutive minutes of one series merge to the aggregate of their whole span. */
  lemma {:induction false} SlotsAreSpan(m: Buckets, v: seq<Entry>, cell: HotKey, lo: int, hi: int)
    requires Ascending(v) && lo % MINUTE == 0 && (hi - lo) % MINUTE == 0
    requires forall b :: lo <= b < hi && (b - lo) % MINUTE == 0 ==>
               BucketOf(m, CoarseSpec.At(cell, b)) == Summarize(v, InKey(CoarseSpec.At(cell, b)))
    ensures Slots(m, cell, lo, hi, MINUTE) == Summarize(v, InSpan(cell.labelsHash, lo, hi))
    decreases hi - lo
  {
    hide Merge, Pick, Fold, InKey, BucketOf;
    if hi <= lo {
      EmptyPart(v, InSpan(cell.labelsHash, lo, hi));
    } else {
      var mid := hi - MINUTE;
      StepDown(hi - lo, MINUTE);
      SlotsAreSpan(m, v, cell, lo, mid);
      SumDivides(mid - lo, lo, MINUTE);
      assert (mid - lo) % MINUTE == 0;
      var last := InKey(CoarseSpec.At(cell, mid));
      forall i | 0 <= i < |v| ensures last(v[i]) <==> v[i].labels.hash == cell.labelsHash && mid <= v[i].timestamp < hi {
        MinuteIsSpan(cell, mid, v[i]);
      }
      SummarizeUnion(v, InSpan(cell.labelsHash, lo, mid), last, InSpan(cell.labelsHash, lo, hi));
    }
  }

  /** With successful transactions only minutes that are not over are pending. */
  lemma {:induction false} PendingIsRecent(steps: seq<Step>)
    requires LegalRun(steps) && AllCommitted(steps)
    ensures forall k :: k in Run(steps).hot ==> k.bucket >= BucketStart(ActiveTime(steps), MINUTE)
  {
    hide Middle, MergePass, ReplacePass, BucketStart;
    if steps != [] && Idle(steps[|steps| - 1]) {
      PendingIsRecent(steps[..|steps| - 1]);
    }
  }

  /** Every minute below a parent was written in time and staged whole. */
  ghost predicate StagedComplete(ladders: Ladders, steps: seq<Step>, p: ParentKey) {
    forall b :: p.cell.bucket <= b < p.cell.bucket + p.interval && (b - p.cell.bucket) % MINUTE == 0 ==>
      WrittenInTime(steps, CoarseSpec.At(p.cell, b)) && StagedWhole(ladders, steps, CoarseSpec.At(p.cell, b))
  }

  lemma RowFacts(coarse: Coarse.CoarseTable, p: ParentKey)
    requires coarse.Valid() && p in coarse.rows
    ensures p.interval > 0 && p.interval % MINUTE == 0 && p.cell.bucket % MINUTE == 0 && Due(p, coarse.clock)
    ensures coarse.rows[p] == Slots(coarse.staged, p.cell, p.cell.bucket, p.cell.bucket + p.interval, MINUTE)
  {
    hide CoarseInvariant.ParentSound, CoarseInvariant.FinerFirst, CoarseInvariant.MinuteFed, CoarseInvariant.RowFed,
         CoarseInvariant.LogSound, CoarseInvariant.StagedSound, Slots;
    CoarseSteps.ShapedDivides(coarse.ladders, p);
    DividesTransitive(p.cell.bucket, p.interval, MINUTE);
  }

  /** Raw samples, minute rows and sealed parents in one statement: with successful minute
      transactions, a sealed parent whose minutes were staged complete is the aggregate of every
      sample ever written into its span, although the raw window has long dropped them. */
  lemma SealedIsHistory(store: MetricStore, p: ParentKey)
    requires store.Valid() && p in store.coarse.rows && p.cell.bucket >= 0
    requires AllCommitted(store.minutes.history) && StagedComplete(store.coarse.ladders, store.minutes.history, p)
    ensures store.coarse.rows[p] ==
            Summarize(Latest(Written(store.minutes.history), p.cell.series),
                      InSpan(p.cell.labelsHash, p.cell.bucket, p.cell.bucket + p.interval))
  {
    hide Store.Store.Valid, Coarse.CoarseTable.Valid, StagedBy, Slots, Summarize, Latest, InKey, Run, WrittenInTime,
         StagedWhole, BucketOf, BucketStart;
    var steps := store.minutes.history;
    HistoryLegal(store.minutes);
    RowFacts(store.coarse, p);
    PendingIsRecent(steps);
    HistoryOrdered(steps, p.cell.series);
    var lo, hi := p.cell.bucket, p.cell.bucket + p.interval;
    forall b | lo <= b < hi && (b - lo) % MINUTE == 0
      ensures BucketOf(store.coarse.staged, CoarseSpec.At(p.cell, b)) ==
              Summarize(Latest(Written(steps), p.cell.series), InKey(CoarseSpec.At(p.cell, b)))
    {
      StagedIsHistory(store.coarse.ladders, steps, CoarseSpec.At(p.cell, b));
    }
    SlotsAreSpan(store.coarse.staged, Latest(Written(steps), p.cell.series), p.cell, lo, hi);
  }

  lemma HistoryOrdered(steps: seq<Step>, s: SeriesKey)
    ensures Ascending(Latest(Written(steps), s))
  {
    UpsertAllKeepsOrder([], EntriesFor(Written(steps), s));
  }
}
