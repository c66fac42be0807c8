/** Handing flushed minutes to the coarse tiers: which version of a minute is staged after a run,
    and when it is the whole minute. */
module Staging {
  import opened Words
  import opened Clock
  import opened Timeline
  import opened RawSeries
  import opened Selection
  import opened Rollup
  import opened Window
  import opened WindowSteps
  import opened WindowFlush
  import opened WindowRuns
  import opened WindowHistory
  import opened CoarseSpec
  import Coarse

  /** The committed buckets whose parent is still open. */
  function HandedOver(ladders: Ladders, minutes: Buckets, now: int): Buckets {
    map m | m in minutes && Coarse.Eligible(LadderOf(ladders, m), m, now) :: minutes[m]
  }

  /** What is staged after a run: every step hands over the buckets it commits. */
  function StagedBy(ladders: Ladders, steps: seq<Step>): Buckets {
    if steps == [] then map[]
    else
      var init, last := steps[..|steps| - 1], steps[|steps| - 1];
      Coarse.Restaged(StagedBy(ladders, init), HandedOver(ladders, CommittedBy(Run(init), last), StepEnd(last)))
  }

  /** The step commits a bucket of `k` and hands it over. */
  predicate HandsOver(ladders: Ladders, st: State, step: Step, k: HotKey) {
    k in CommittedBy(st, step) && Coarse.Eligible(LadderOf(ladders, k), k, StepEnd(step))
  }

  lemma RestagedAt(staged: Buckets, minutes: Buckets, k: HotKey)
    requires forall m :: m in minutes ==> WellFormed(minutes[m])
    ensures BucketOf(Coarse.Restaged(staged, minutes), k) == if k in minutes then minutes[k] else BucketOf(staged, k)
  {
  }

  /** The staged version of a minute is the last bucket of it that was committed in time. */
  lemma LastCommittedStaged(ladders: Ladders, steps: seq<Step>, step: Step, k: HotKey)
    requires LegalRun(steps + [step])
    ensures BucketOf(StagedBy(ladders, steps + [step]), k) ==
            if HandsOver(ladders, Run(steps), step, k) then CommittedBy(Run(steps), step)[k]
            else BucketOf(StagedBy(ladders, steps), k)
  {
    hide Coarse.Restaged, Middle, Good, Coarse.Eligible, WellFormed;
    assert (steps + [step])[..|steps|] == steps;
    CommittedWellFormed(steps, step);
    RestagedAt(StagedBy(ladders, steps), HandedOver(ladders, CommittedBy(Run(steps), step), StepEnd(step)), k);
  }

  lemma CommittedWellFormed(steps: seq<Step>, step: Step)
    requires LegalRun(steps + [step])
    ensures AllWellFormed(CommittedBy(Run(steps), step))
  {
    hide Accounts, Latest, From, Middle, WellFormed;
    assert (steps + [step])[..|steps|] == steps;
    RunGood(steps);
    if !Idle(step) {
      MiddleGood(Run(steps), step, Written(steps), TrimTime(steps), LastTime(steps));
    }
  }

  /** What a step does to the row of a key. */
  lemma RowAfterStep(steps: seq<Step>, step: Step, k: HotKey)
    requires LegalRun(steps + [step]) && k.bucket >= 0
    ensures var st, mid := Run(steps), Middle(Run(steps), step);
            BucketOf(Do(st, step).rows, k) ==
            if k in CommittedBy(st, step) then Apply(BucketOf(st.rows, k), mid.hot[k], k in mid.replace)
            else BucketOf(st.rows, k)
  {
    hide Accounts, Latest, From, Merge, FlushHot, Ingest, Trim, WellFormed;
    assert (steps + [step])[..|steps|] == steps;
    var st := Run(steps);
    RunGood(steps);
    if !Idle(step) {
      MiddleGood(st, step, Written(steps), TrimTime(steps), LastTime(steps));
      MiddleRows(st, step);
      var mid := Middle(st, step);
      if step.ok {
        FlushedRows(mid, StepEnd(step), step.order, k);
      } else {
        FailedFlush(mid, StepEnd(step), step.order);
      }
    }
  }

  lemma MiddleRows(st: State, step: Step)
    ensures Middle(st, step).rows == st.rows
  {
    hide Trim, PutAll, AddHotAll, RebuildKeys, Rebuilt;
  }

  lemma FailedFlush(st: State, now: int, order: seq<HotKey>)
    ensures FlushHot(st, now, false, order) == st
  {
  }

  /** The bucket a step commits for `k` is the whole minute: it replaces the row, or there is none. */
  predicate WholeCommit(st: State, step: Step, k: HotKey) {
    k in Middle(st, step).replace || k !in st.rows
  }

  /** A flushed minute is staged as the bucket just committed. That bucket equals the row it became
      part of exactly when it replaced the row or the row was absent. */
  lemma StagedIsRowIff(ladders: Ladders, steps: seq<Step>, step: Step, k: HotKey)
    requires LegalRun(steps + [step]) && k.bucket >= 0 && HandsOver(ladders, Run(steps), step, k)
    ensures BucketOf(StagedBy(ladders, steps + [step]), k) == CommittedBy(Run(steps), step)[k]
    ensures BucketOf(StagedBy(ladders, steps + [step]), k) == BucketOf(Run(steps + [step]).rows, k)
            <==> WholeCommit(Run(steps), step, k)
  {
    hide Accounts, Latest, From, Merge, FlushHot, Middle, WellFormed;
    LastCommittedStaged(ladders, steps, step, k);
    RowAfterStep(steps, step, k);
    assert (steps + [step])[..|steps|] == steps;
    RunGood(steps);
    MiddleGood(Run(steps), step, Written(steps), TrimTime(steps), LastTime(steps));
    var mid := Middle(Run(steps), step);
    EmptyIsWellFormed();
    AddsUnlessEmpty(BucketOf(Run(steps).rows, k), mid.hot[k]);
  }

  lemma EmptyIsWellFormed()
    ensures WellFormed(EMPTY)
  {
  }

  lemma AddsUnlessEmpty(row: Summary, delta: Summary)
    requires WellFormed(row) && WellFormed(delta)
    ensures delta.count > 0 ==> (Merge(row, delta) == delta <==> row.count == 0)
    ensures row.count == 0 ==> Merge(row, delta) == delta
  {
    MergeUnit(delta);
  }

  // ---- minutes staged complete -----------------------------------------------------------------------

  /** Every bucket of `k` the run commits is handed over, and is the whole minute. */
  ghost predicate StagedWhole(ladders: Ladders, steps: seq<Step>, k: HotKey) {
    steps == [] ||
    (var init, last := steps[..|steps| - 1], steps[|steps| - 1];
     StagedWhole(ladders, init, k)
     && (k in CommittedBy(Run(init), last) ==> HandsOver(ladders, Run(init), last, k) && WholeCommit(Run(init), last, k)))
  }

  /** A minute flushed within the grace period after its end is always handed over. */
  lemma FreshIsHandedOver(ladders: Ladders, k: HotKey, now: int)
    requires ValidLadders(ladders) && |LadderOf(ladders, k)| >= 2 && k.bucket % MINUTE == 0
    requires now < k.bucket + MINUTE + GRACE
    ensures Coarse.Eligible(LadderOf(ladders, k), k, now)
  {
    var l := LadderOf(ladders, k);
    assert ValidLadder(ladders(k.series.metricName));
    assert l[1] % l[0] == 0 && l[0] == MINUTE;
    BucketNested(k.bucket, MINUTE, l[1]);
    MultipleUnique(BucketStart(k.bucket, MINUTE), k.bucket, MINUTE);
  }

  /** A minute that can still be rebuilt from the raw window can still be handed over. */
  lemma WindowIsHandedOver(ladders: Ladders, k: HotKey, now: int)
    requires ValidLadders(ladders) && |LadderOf(ladders, k)| >= 2 && k.bucket % MINUTE == 0
    requires k.bucket >= RawCutoff(now)
    ensures Coarse.Eligible(LadderOf(ladders, k), k, now)
  {
    FreshIsHandedOver(ladders, k, now);
  }

  lemma {:induction false} StagedIsRow(ladders: Ladders, steps: seq<Step>, k: HotKey)
    requires LegalRun(steps) && k.bucket >= 0 && StagedWhole(ladders, steps, k)
    ensures BucketOf(StagedBy(ladders, steps), k) == BucketOf(Run(steps).rows, k)
  {
    hide Middle, FlushHot, WholeCommit, HandsOver, CommittedBy, Coarse.Restaged, HandedOver;
    if steps != [] {
      var init, last := steps[..|steps| - 1], steps[|steps| - 1];
      StagedIsRow(ladders, init, k);
      assert init + [last] == steps;
      LastCommittedStaged(ladders, init, last, k);
      if k in CommittedBy(Run(init), last) {
        StagedIsRowIff(ladders, init, last, k);
      } else {
        RowAfterStep(init, last, k);
        NotHandedOver(ladders, Run(init), last, k);
      }
    }
  }

  lemma NotHandedOver(ladders: Ladders, st: State, step: Step, k: HotKey)
    requires k !in CommittedBy(st, step)
    ensures !HandsOver(ladders, st, step, k)
  {
  }

  /** From raw samples to staged minutes: a minute whose points arrived in time, staged whole and
      with nothing pending is staged as the aggregate of everything written into it. */
  lemma StagedIsHistory(ladders: Ladders, steps: seq<Step>, k: HotKey)
    requires LegalRun(steps) && k.bucket >= 0 && WrittenInTime(steps, k) && StagedWhole(ladders, steps, k)
    requires k !in Run(steps).hot
    ensures BucketOf(StagedBy(ladders, steps), k) == Summarize(Latest(Written(steps), k.series), InKey(k))
  {
    hide Merge, Accounts, From, Latest, Summarize, StagedBy, StagedWhole, WellFormed;
    StagedIsRow(ladders, steps, k);
    MinutesOutliveWindow(steps, k);
    RunGood(steps);
    EmptyIsWellFormed();
    MergeUnit(BucketOf(Run(steps).rows, k));
  }
}
