/** Minutes that have left the raw window: as long as every point of a minute arrives while the
    window still holds it, row and pending bucket stay the aggregate of everything written. */
module WindowHistory {
  import opened Words
  import opened Clock
  import opened Timeline
  import opened RawSeries
  import opened Selection
  import opened Rollup
  import opened Window
  import opened WindowSteps
  import opened WindowFlush
  import opened WindowRuns

  /** No point of the minute is older than the window it is written into. */
  ghost predicate PointsInTime(points: seq<Point>, cutoff: int, k: HotKey) {
    forall i :: 0 <= i < |points| && SameMinute(points[i], k) ==> points[i].timestamp >= cutoff
  }

  predicate SameMinute(p: Point, k: HotKey) {
    p.series == k.series && BucketStart(p.timestamp, MINUTE) == k.bucket
  }

  ghost predicate WrittenInTime(steps: seq<Step>, k: HotKey) {
    forall i :: 0 <= i < |steps| && steps[i].Write? ==> PointsInTime(steps[i].points, RawCutoff(steps[i].rawNow), k)
  }

  // ---- a step of a later window ------------------------------------------------------------------

  lemma LaterPointsElsewhere(points: seq<Point>, cutoff: int, k: HotKey)
    requires PointsInTime(points, cutoff, k) && cutoff % MINUTE == 0 && k.bucket < cutoff
    ensures forall i :: 0 <= i < |points| ==> !SameMinute(points[i], k)
  {
    forall i | 0 <= i < |points| ensures !SameMinute(points[i], k) {
      if SameMinute(points[i], k) {
        AlignedBelow(cutoff, points[i].timestamp);
      }
    }
  }

  lemma AlignedBelow(cutoff: int, ts: int)
    requires cutoff % MINUTE == 0 && cutoff <= ts
    ensures cutoff <= BucketStart(ts, MINUTE)
  {
    BucketMonotone(cutoff, ts, MINUTE);
    MultipleUnique(BucketStart(cutoff, MINUTE), cutoff, MINUTE);
  }

  lemma {:induction false} HotElsewhere(hot: Buckets, points: seq<Point>, k: HotKey)
    requires forall i :: 0 <= i < |points| ==> !SameMinute(points[i], k)
    ensures k in AddHotAll(hot, points) <==> k in hot
    ensures k in hot ==> AddHotAll(hot, points)[k] == hot[k]
  {
    hide AddPoint, Observe;
    if points != [] {
      HotElsewhere(hot, points[..|points| - 1], k);
    }
  }

  lemma {:induction false} RebuildInside(raw: RawWindow, points: seq<Point>, cutoff: int, directCutoff: int)
    requires cutoff % MINUTE == 0
    ensures forall k :: k in RebuildKeys(raw, points, cutoff, directCutoff) ==> k.bucket >= cutoff
  {
    hide PutRaw, Marks;
    if points != [] {
      var init, p := points[..|points| - 1], points[|points| - 1];
      RebuildInside(raw, init, cutoff, directCutoff);
      if p.timestamp >= cutoff {
        AlignedBelow(cutoff, p.timestamp);
      }
    }
  }

  /** Ingesting a batch does not touch a minute the window has left behind. */
  lemma MiddleElsewhere(st: State, step: Step, k: HotKey)
    requires k.bucket < RawCutoff(StepStart(step)) && !Idle(step)
    requires step.Write? ==> PointsInTime(step.points, RawCutoff(step.rawNow), k)
    ensures SamePending(st.hot, st.replace, Middle(st, step).hot, Middle(st, step).replace, k)
    ensures Middle(st, step).rows == st.rows
  {
    hide AddHotAll, RebuildKeys, PutAll, Trim, MinuteSummary;
    if step.Write? {
      var cutoff := RawCutoff(step.rawNow);
      LaterPointsElsewhere(step.points, cutoff, k);
      HotElsewhere(st.hot, step.points, k);
      RebuildInside(Trim(st.raw, cutoff), step.points, cutoff, DirectCutoff(step.rawNow));
    }
  }

  lemma {:induction false} EntriesElsewhere(points: seq<Point>, k: HotKey)
    requires forall i :: 0 <= i < |points| ==> !SameMinute(points[i], k)
    ensures forall i :: 0 <= i < |EntriesFor(points, k.series)| ==>
              BucketStart(EntriesFor(points, k.series)[i].timestamp, MINUTE) != k.bucket
  {
    if points != [] {
      EntriesElsewhere(points[..|points| - 1], k);
    }
  }

  lemma {:induction false} HistoryElsewhere(v: seq<Entry>, es: seq<Entry>, k: HotKey)
    requires Ascending(v) && forall i :: 0 <= i < |es| ==> BucketStart(es[i].timestamp, MINUTE) != k.bucket
    ensures Summarize(UpsertAll(v, es), InKey(k)) == Summarize(v, InKey(k))
  {
    hide Upsert, Pick, Fold, ToMap;
    if es != [] {
      var init, e := es[..|es| - 1], es[|es| - 1];
      HistoryElsewhere(v, init, k);
      var s := UpsertAll(v, init);
      UpsertAllKeepsOrder(v, init);
      ToMapEntries(s);
      PickUpsertUnseen(s, e, InKey(k));
    }
  }

  /** Flushing moves what a key means between the tables, committed or failed. */
  lemma FlushKeepsMeaning(st: State, now: int, ok: bool, order: seq<HotKey>, k: HotKey)
    requires AllWellFormed(st.hot) && AllWellFormed(st.rows)
    requires ClockInRange(now) && Enumerates(order, ClosedKeys(st.hot, now)) && 0 <= k.bucket
    ensures Denote(FlushHot(st, now, ok, order), k) == Denote(st, k)
  {
    hide Merge, MergePass, ReplacePass, StampsOf;
    if ok {
      FlushedRows(st, now, order, k);
      if k in ClosedKeys(st.hot, now) {
        MergeWellFormed(BucketOf(st.rows, k), BucketOf(st.hot, k));
        MergeUnit(Denote(st, k));
      }
    }
  }

  /** After a committed flush the row of a closed key is what the key meant. */
  lemma FlushedRows(st: State, now: int, order: seq<HotKey>, k: HotKey)
    requires AllWellFormed(st.hot) && AllWellFormed(st.rows)
    requires ClockInRange(now) && Enumerates(order, ClosedKeys(st.hot, now)) && 0 <= k.bucket
    ensures BucketOf(FlushHot(st, now, true, order).rows, k) ==
            if k in ClosedKeys(st.hot, now) then Denote(st, k) else BucketOf(st.rows, k)
  {
    hide Merge, MergePass, ReplacePass, StampsOf;
    forall i | 0 <= i < |order| ensures StoredKey(order[i]) == k <==> order[i] == k {
      assert order[i] in ClosedKeys(st.hot, now);
      NormalizeIsIdentityWithinLimit(order[i].bucket);
    }
    MergePassRow(st.rows, st.hot, st.replace, order, k);
    ReplacePassRow(MergePass(st.rows, st.hot, st.replace, order), st.hot, st.replace, order, k);
    assert k in order <==> k in ClosedKeys(st.hot, now);
  }

  // ---- the main result -----------------------------------------------------------------------------

  /** For every minute all of whose points arrived in time, row and pending bucket together are
      the aggregate of the last-writer-wins history, long after the raw samples are gone. */
  lemma {:induction false} MinutesOutliveWindow(steps: seq<Step>, k: HotKey)
    requires LegalRun(steps) && k.bucket >= 0 && WrittenInTime(steps, k)
    ensures Denote(Run(steps), k) == Summarize(Latest(Written(steps), k.series), InKey(k))
  {
    hide Summarize, InKey, FlushHot, Middle, Latest, Denote, PointsInTime;
    if k.bucket >= WindowStart(steps) {
      MinuteBucketsExact(steps, k);
    } else {
      assert steps != [];
      var init, last := steps[..|steps| - 1], steps[|steps| - 1];
      MinutesOutliveWindow(init, k);
      if Idle(last) {
        assert Written(steps) == Written(init);
      } else {
        RunGood(init);
        OutsideStep(Run(init), last, Written(init), TrimTime(init), LastTime(init), k);
      }
    }
  }

  lemma OutsideStep(st: State, step: Step, written: seq<Point>, trimmed: int, last: int, k: HotKey)
    requires Good(st, written, trimmed, last) && Legal(st, last, step) && !Idle(step)
    requires 0 <= k.bucket < RawCutoff(StepStart(step))
    requires step.Write? ==> PointsInTime(step.points, RawCutoff(step.rawNow), k)
    ensures Denote(Do(st, step), k) == Denote(st, k)
    ensures var more := written + (if step.Write? then step.points else []);
            Summarize(Latest(more, k.series), InKey(k)) == Summarize(Latest(written, k.series), InKey(k))
  {
    hide Summarize, FlushHot, Middle, Accounts, UpsertAll, EntriesFor, Merge, From;
    MiddleElsewhere(st, step, k);
    MiddleGood(st, step, written, trimmed, last);
    FlushKeepsMeaning(Middle(st, step), StepEnd(step), step.ok, step.order, k);
    if step.Write? {
      var v, es := Latest(written, k.series), EntriesFor(step.points, k.series);
      EntriesConcat(written, step.points, k.series);
      UpsertAllConcat([], EntriesFor(written, k.series), es);
      LaterPointsElsewhere(step.points, RawCutoff(step.rawNow), k);
      EntriesElsewhere(step.points, k);
      UpsertAllKeepsOrder([], EntriesFor(written, k.series));
      HistoryElsewhere(v, es, k);
    } else {
      assert written + [] == written;
    }
  }
}
