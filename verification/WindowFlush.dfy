/** Moving closed minute buckets into the persisted rows, and putting them back. */
module WindowFlush {
  import opened Words
  import opened Clock
  import opened Timeline
  import opened RawSeries
  import opened Selection
  import opened Rollup
  import opened Window
  import opened WindowSteps

  ghost predicate AllWellFormed(b: Buckets) {
    forall k :: k in b ==> WellFormed(b[k])
  }

  /** No listed bucket other than `k` itself is stored under `k`. */
  ghost predicate StoredApart(order: seq<HotKey>, k: HotKey) {
    forall i :: 0 <= i < |order| ==> (StoredKey(order[i]) == k <==> order[i] == k)
  }

  lemma {:induction false} MergePassRow(rows: Buckets, hot: Buckets, replace: set<HotKey>, order: seq<HotKey>, k: HotKey)
    requires AllWellFormed(rows) && AllWellFormed(hot) && StoredApart(order, k)
    requires forall i, j :: 0 <= i < j < |order| ==> order[i] != order[j]
    ensures AllWellFormed(MergePass(rows, hot, replace, order))
    ensures BucketOf(MergePass(rows, hot, replace, order), k) ==
            if k in order && k !in replace then Merge(BucketOf(rows, k), BucketOf(hot, k)) else BucketOf(rows, k)
  {
    hide Merge;
    if order != [] {
      var init, last := order[..|order| - 1], order[|order| - 1];
      MergePassRow(rows, hot, replace, init, k);
      var r := MergePass(rows, hot, replace, init);
      var s := StoredKey(last);
      MergeWellFormed(BucketOf(r, s), BucketOf(hot, last));
      MergeUnit(BucketOf(hot, last));
      assert order == init + [last];
      assert k == last ==> k !in init;
    }
  }

  lemma {:induction false} ReplacePassRow(rows: Buckets, hot: Buckets, replace: set<HotKey>, order: seq<HotKey>, k: HotKey)
    requires AllWellFormed(rows) && AllWellFormed(hot)
    ensures AllWellFormed(ReplacePass(rows, hot, replace, order))
    ensures BucketOf(ReplacePass(rows, hot, replace, order), k) ==
            if k in order && k in replace then BucketOf(hot, k) else BucketOf(rows, k)
    ensures forall x :: x in ReplacePass(rows, hot, replace, order) ==> x in rows || (x in order && x in replace)
  {
    if order != [] {
      var init, last := order[..|order| - 1], order[|order| - 1];
      ReplacePassRow(rows, hot, replace, init, k);
      assert order == init + [last];
    }
  }

  lemma {:induction false} MergePassKeys(rows: Buckets, hot: Buckets, replace: set<HotKey>, order: seq<HotKey>)
    ensures forall x :: x in MergePass(rows, hot, replace, order) ==>
              x in rows || exists i :: 0 <= i < |order| && x == StoredKey(order[i])
  {
    if order != [] {
      var init, last := order[..|order| - 1], order[|order| - 1];
      MergePassKeys(rows, hot, replace, init);
      forall x | x in MergePass(rows, hot, replace, order) && x !in rows
        ensures exists i :: 0 <= i < |order| && x == StoredKey(order[i])
      {
        if x in MergePass(rows, hot, replace, init) {
          var i :| 0 <= i < |init| && x == StoredKey(init[i]);
          assert x == StoredKey(order[i]);
        } else {
          assert x == StoredKey(order[|order| - 1]);
        }
      }
    }
  }

  /** Outside ten trillion milliseconds around the epoch a merged bucket lands in another
      row: the merge path reaches its own row exactly when normalisation leaves it alone. */
  lemma MergeReachesOwnRow(rows: Buckets, hot: Buckets, k: HotKey)
    requires AllWellFormed(rows) && AllWellFormed(hot) && k in hot && hot[k].count > 0
    ensures BucketOf(MergePass(rows, hot, {}, [k]), k) == Merge(BucketOf(rows, k), BucketOf(hot, k))
            <==> -10_000_000_000_000 <= k.bucket <= 10_000_000_000_000
  {
    NormalizeIsIdentityWithinLimit(k.bucket);
    assert [k][..0] == [];
    assert MergePass(rows, hot, {}, []) == rows;
    MergeUnit(hot[k]);
    MergeWellFormed(BucketOf(rows, k), hot[k]);
  }

  /** The times for which every closed bucket that can meet the window keeps its own row. */
  predicate ClockInRange(now: int) {
    RAW_RETENTION <= now <= NORMALIZE_LIMIT
  }

  lemma ClosedStoredApart(hot: Buckets, now: int, order: seq<HotKey>, k: HotKey)
    requires ClockInRange(now) && Enumerates(order, ClosedKeys(hot, now))
    requires 0 <= k.bucket <= NORMALIZE_LIMIT
    ensures StoredApart(order, k)
  {
    forall i | 0 <= i < |order| ensures StoredKey(order[i]) == k <==> order[i] == k {
      assert order[i] in ClosedKeys(hot, now);
      NormalizeIsIdentityWithinLimit(order[i].bucket);
    }
  }

  lemma EmptyPart(v: seq<Entry>, p: Entry -> bool)
    requires forall i :: 0 <= i < |v| ==> !p(v[i])
    ensures Summarize(v, p) == EMPTY
  {
    PickNone(v, p);
    FoldEmpty();
  }

  /** A committed flush takes exactly the minutes that are over by `now`. */
  lemma FlushTakesOver(st: State, now: int, order: seq<HotKey>, k: HotKey)
    requires k.bucket % 60_000 == 0
    ensures k in FlushHot(st, now, true, order).hot <==> k in st.hot && k.bucket + 60_000 > now
    ensures k in st.hot && k.bucket + 60_000 > now ==> FlushHot(st, now, true, order).hot[k] == st.hot[k]
    ensures k in FlushHot(st, now, true, order).replace <==> k in st.replace && !(k in st.hot && k.bucket + 60_000 <= now)
  {
    hide MergePass, ReplacePass;
    var start := BucketStart(now, MINUTE);
    if k.bucket < start < k.bucket + 60_000 {
      MultipleUnique(start, k.bucket, MINUTE);
    }
    if k.bucket + 60_000 <= now && start <= k.bucket {
      MultipleUnique(start, k.bucket, MINUTE);
    }
  }

  /** A successful flush moves what a key means from the pending bucket into its row. */
  lemma FlushKeepsAccount(st: State, now: int, ok: bool, order: seq<HotKey>, k: HotKey)
    requires RawOrdered(st.raw) && AllWellFormed(st.hot) && AllWellFormed(st.rows)
    requires ClockInRange(now) && Enumerates(order, ClosedKeys(st.hot, now))
    requires 0 <= k.bucket && Accounts(st, k)
    ensures Accounts(FlushHot(st, now, ok, order), k)
  {
    hide Merge, Summarize, ToMap, MergePass, ReplacePass, Accounts;
    var closed := ClosedKeys(st.hot, now);
    if ok {
      if k in closed {
        ClosedStoredApart(st.hot, now, order, k);
        MergePassRow(st.rows, st.hot, st.replace, order, k);
        ReplacePassRow(MergePass(st.rows, st.hot, st.replace, order), st.hot, st.replace, order, k);
        AccountsDenotes(st, k);
        FlushedRow(st, FlushHot(st, now, ok, order), k);
      } else {
        UntouchedRow(st, now, order, k);
      }
    }
  }

  lemma FlushedRow(st: State, after: State, k: HotKey)
    requires RawOrdered(st.raw) && after.raw == st.raw
    requires k !in after.hot && k !in after.replace && k in after.flushed && after.flushed[k] == StampsOf(st.raw, k)
    requires Accounts(st, k) && Denote(st, k) == MinuteSummary(st.raw, k)
    requires BucketOf(after.rows, k) == Denote(st, k)
    ensures Accounts(after, k)
  {
    hide Merge, Fold, Pick;
    var v, f := SeriesOf(st.raw, k.series), StampsOf(st.raw, k);
    forall i | 0 <= i < |v| ensures InPart(k, f, true)(v[i]) == InKey(k)(v[i]) && !InPart(k, f, false)(v[i]) {
      if InKey(k)(v[i]) { assert v[i].timestamp in f; }
    }
    PickCongruent(v, InPart(k, f, true), InKey(k));
    EmptyPart(v, InPart(k, f, false));
    forall t | t in f ensures t in ToMap(v) && InKey(k)(ToMap(v)[t]) {
      var i :| 0 <= i < |v| && InKey(k)(v[i]) && v[i].timestamp == t;
      assert v[i] in v;
      ToMapAt(v, v[i]);
    }
  }

  /** A key that is not closed may still share its bucket number with no stored row. */
  lemma UntouchedRow(st: State, now: int, order: seq<HotKey>, k: HotKey)
    requires AllWellFormed(st.hot) && AllWellFormed(st.rows)
    requires ClockInRange(now) && Enumerates(order, ClosedKeys(st.hot, now))
    requires 0 <= k.bucket && k !in ClosedKeys(st.hot, now) && Accounts(st, k)
    ensures Accounts(FlushHot(st, now, true, order), k)
  {
    hide Merge, Summarize, ToMap, MergePass, ReplacePass;
    forall i | 0 <= i < |order| ensures StoredKey(order[i]) == k <==> order[i] == k {
      assert order[i] in ClosedKeys(st.hot, now);
      NormalizeIsIdentityWithinLimit(order[i].bucket);
    }
    MergePassRow(st.rows, st.hot, st.replace, order, k);
    ReplacePassRow(MergePass(st.rows, st.hot, st.replace, order), st.hot, st.replace, order, k);
    assert k !in order;
  }

  /** After a successful flush no key has both a pending bucket and a row. */
  lemma FlushSeparates(st: State, now: int, order: seq<HotKey>)
    requires ClockInRange(now) && Enumerates(order, ClosedKeys(st.hot, now))
    requires forall k :: k in st.rows ==> k.bucket < BucketStart(now, MINUTE)
    ensures var after := FlushHot(st, now, true, order);
            && (forall k :: k in after.rows ==> k.bucket < BucketStart(now, MINUTE))
            && (forall k :: k in after.hot ==> k.bucket >= BucketStart(now, MINUTE))
  {
    hide MergePass, ReplacePass;
    var merged := MergePass(st.rows, st.hot, st.replace, order);
    MergePassKeys(st.rows, st.hot, st.replace, order);
    ReplacePassKeys(merged, st.hot, st.replace, order);
    BucketMonotone(0, now, MINUTE);
    MultipleUnique(BucketStart(0, MINUTE), 0, MINUTE);
    forall k | k in FlushHot(st, now, true, order).rows ensures k.bucket < BucketStart(now, MINUTE) {
      if k in merged && k !in st.rows {
        var i :| 0 <= i < |order| && k == StoredKey(order[i]);
        assert order[i] in ClosedKeys(st.hot, now);
        NormalizeIsIdentityWithinLimit(order[i].bucket);
      } else if k !in merged {
        assert k in ClosedKeys(st.hot, now);
      }
    }
  }

  lemma {:induction false} ReplacePassKeys(rows: Buckets, hot: Buckets, replace: set<HotKey>, order: seq<HotKey>)
    ensures forall x :: x in ReplacePass(rows, hot, replace, order) ==> x in rows || x in order
  {
    if order != [] {
      ReplacePassKeys(rows, hot, replace, order[..|order| - 1]);
      assert order == order[..|order| - 1] + [order[|order| - 1]];
    }
  }

  // ---- a failed transaction ------------------------------------------------------------------

  /** One taken bucket put back into a hot table that may have moved on meanwhile. */
  function RestoreOne(hot: Buckets, replace: set<HotKey>, k: HotKey, b: Summary, overwrites: bool): (Buckets, set<HotKey>) {
    if k !in hot then (hot[k := b], if overwrites then replace + {k} else replace)
    else if k in replace then (hot, replace)
    else if overwrites then (hot[k := Merge(b, hot[k])], replace + {k})
    else (hot[k := Merge(hot[k], b)], replace)
  }

  /** What a row becomes when a pending bucket is applied to it. */
  function Apply(row: Summary, b: Summary, overwrites: bool): Summary {
    if overwrites then b else Merge(row, b)
  }

  /** Applying what is pending for `k`, if anything, to its row. */
  function ApplyPending(row: Summary, hot: Buckets, replace: set<HotKey>, k: HotKey): Summary {
    if k in hot then Apply(row, hot[k], k in replace) else row
  }

  /** The same samples, though where the first or last timestamp ties another value may stand for it. */
  predicate SameUpToTies(a: Summary, b: Summary) {
    && a.count == b.count && a.sum == b.sum && a.sumSq == b.sumSq && a.min == b.min && a.max == b.max
    && a.firstTS == b.firstTS && a.lastTS == b.lastTS
  }

  /** The tables agree at `k`. */
  ghost predicate SamePending(hot: Buckets, replace: set<HotKey>, hot': Buckets, replace': set<HotKey>, k: HotKey) {
    (k in hot' <==> k in hot) && (k in replace' <==> k in replace) && (k in hot ==> hot'[k] == hot[k])
  }

  /** The tables agree everywhere but at `k`. */
  ghost predicate SameElsewhere(hot: Buckets, replace: set<HotKey>, hot': Buckets, replace': set<HotKey>, k: HotKey) {
    forall x :: x != k ==> SamePending(hot, replace, hot', replace', x)
  }

  lemma MergesUpToTies(row: Summary, a: Summary, b: Summary)
    requires WellFormed(row) && WellFormed(a) && WellFormed(b)
    ensures SameUpToTies(Merge(row, Merge(a, b)), Merge(row, Merge(b, a)))
  {
  }

  /** Restoring one bucket is sequential composition: the taken bucket first, then whatever is
      pending now. Only a bucket merged into merged work comes out in the other order. */
  lemma RestoreComposes(row: Summary, hot: Buckets, replace: set<HotKey>, k: HotKey, b: Summary, overwrites: bool)
    requires WellFormed(row) && WellFormed(b) && AllWellFormed(hot) && replace <= hot.Keys
    ensures var (hot', replace') := RestoreOne(hot, replace, k, b, overwrites);
            && replace' <= hot'.Keys && AllWellFormed(hot') && SameElsewhere(hot, replace, hot', replace', k)
            && var restored, meant := ApplyPending(row, hot', replace', k), ApplyPending(Apply(row, b, overwrites), hot, replace, k);
               && SameUpToTies(restored, meant)
               && (k !in hot || k in replace || overwrites || NoTies(hot[k], b) ==> restored == meant)
  {
    hide Merge;
    if k in hot {
      MergeWellFormed(b, hot[k]);
      MergeWellFormed(hot[k], b);
      MergeAssociative(row, b, hot[k]);
      MergesUpToTies(row, hot[k], b);
      MergeCommutes(hot[k], b);
    }
  }
}
