/** Why every step keeps each minute bucket of the window accounted for. */
module WindowSteps {
  import opened Words
  import opened Clock
  import opened Timeline
  import opened RawSeries
  import opened Selection
  import opened Rollup
  import opened Window

  ghost predicate RawOrdered(raw: RawWindow) {
    forall s :: s in raw ==> Ascending(raw[s])
  }

  // ---- trimming -------------------------------------------------------------------------------

  lemma TrimSeries(raw: RawWindow, cutoff: int, s: SeriesKey)
    ensures SeriesOf(Trim(raw, cutoff), s) == From(SeriesOf(raw, s), cutoff)
  {
  }

  lemma TrimKeepsOrder(raw: RawWindow, cutoff: int)
    requires RawOrdered(raw)
    ensures RawOrdered(Trim(raw, cutoff))
  {
    forall s | s in Trim(raw, cutoff) ensures Ascending(Trim(raw, cutoff)[s]) {
      FromRestrictsMap(raw[s], cutoff);
    }
  }

  /** Trimming at a minute boundary leaves every minute at or after it untouched. */
  lemma TrimKeepsAccount(st: State, k: HotKey, cutoff: int)
    requires RawOrdered(st.raw) && Accounts(st, k) && k.bucket >= cutoff
    ensures Accounts(st.(raw := Trim(st.raw, cutoff)), k)
  {
    hide Trim, From, ToMap, Summarize;
    var v, f := SeriesOf(st.raw, k.series), FlushedOf(st, k);
    TrimSeries(st.raw, cutoff, k.series);
    TrimKeepsSummary(v, cutoff, k, InKey(k));
    TrimKeepsSummary(v, cutoff, k, InPart(k, f, true));
    TrimKeepsSummary(v, cutoff, k, InPart(k, f, false));
    FromRestrictsMap(v, cutoff);
    ToMapEntries(v);
  }

  lemma TrimKeepsSummary(v: seq<Entry>, cutoff: int, k: HotKey, p: Entry -> bool)
    requires k.bucket >= cutoff && forall e :: p(e) ==> InKey(k)(e)
    ensures Summarize(From(v, cutoff), p) == Summarize(v, p)
  {
    PickFrom(v, cutoff, p);
  }

  // ---- one point -------------------------------------------------------------------------------

  lemma PutKeepsOrder(raw: RawWindow, p: Point, cutoff: int)
    requires RawOrdered(raw)
    ensures RawOrdered(PutRaw(raw, p, cutoff))
  {
    hide Upsert;
    if p.timestamp >= cutoff {
      UpsertKeepsOrder(SeriesOf(raw, p.series), EntryOf(p));
    }
  }

  /** The state while a batch is being written: raw and hot advance together. */
  function PutPoint(st: State, p: Point, cutoff: int): State {
    st.(raw := PutRaw(st.raw, p, cutoff), hot := AddHot(st.hot, p))
  }

  /** A point that does not mark the bucket keeps it accounted for: either it misses the
      bucket altogether, or it is a new timestamp that both halves gain. */
  lemma PutKeepsAccount(st: State, p: Point, k: HotKey, cutoff: int, directCutoff: int)
    requires RawOrdered(st.raw) && Accounts(st, k)
    requires cutoff % MINUTE == 0 && k.bucket >= cutoff
    requires k !in MarkedKeys(st.raw, p, cutoff, directCutoff)
    ensures Accounts(PutPoint(st, p, cutoff), k)
  {
    hide Upsert, ToMap, Summarize, AddPoint, Marks, Accounts;
    if p.timestamp < cutoff {
      OldPointElsewhere(st, p, k, cutoff);
    } else if p.series != k.series {
      OtherSeriesPoint(st, p, k, cutoff);
    } else if KeyOf(p) != k {
      UnmarkedMiss(st, p, k, cutoff, directCutoff);
      MissedPoint(st, p, k, cutoff);
    } else {
      UnmarkedHit(st, p, k, cutoff, directCutoff);
      NewStamp(st, p, k, cutoff);
    }
  }

  lemma OldPointElsewhere(st: State, p: Point, k: HotKey, cutoff: int)
    requires Accounts(st, k) && p.timestamp < cutoff <= k.bucket
    ensures Accounts(PutPoint(st, p, cutoff), k)
  {
    hide Upsert, ToMap, Summarize, AddPoint;
    assert KeyOf(p) != k;
  }

  lemma OtherSeriesPoint(st: State, p: Point, k: HotKey, cutoff: int)
    requires Accounts(st, k) && p.series != k.series
    ensures Accounts(PutPoint(st, p, cutoff), k)
  {
    hide Upsert, ToMap, Summarize, AddPoint;
    assert KeyOf(p) != k;
    assert SeriesOf(PutRaw(st.raw, p, cutoff), k.series) == SeriesOf(st.raw, k.series);
  }

  lemma InMinute(e: Entry, s: SeriesKey, k: HotKey)
    requires k.series == s
    ensures InKey(k)(e) <==> k == HotKey(s, e.labels.hash, BucketStart(e.timestamp, MINUTE))
  {
  }

  lemma UnmarkedMiss(st: State, p: Point, k: HotKey, cutoff: int, directCutoff: int)
    requires p.timestamp >= cutoff && p.series == k.series && KeyOf(p) != k
    requires k !in MarkedKeys(st.raw, p, cutoff, directCutoff)
    ensures !InKey(k)(EntryOf(p))
    ensures var v := SeriesOf(st.raw, k.series);
            p.timestamp in ToMap(v) ==> ToMap(v)[p.timestamp].timestamp == p.timestamp && !InKey(k)(ToMap(v)[p.timestamp])
  {
    hide ToMap;
    var v := SeriesOf(st.raw, k.series);
    InMinute(EntryOf(p), p.series, k);
    ToMapEntries(v);
    if p.timestamp in ToMap(v) {
      var found := ToMap(v)[p.timestamp];
      InMinute(found, p.series, k);
      assert found.labels.hash in Marks(v, EntryOf(p), directCutoff);
    }
  }

  lemma UnmarkedHit(st: State, p: Point, k: HotKey, cutoff: int, directCutoff: int)
    requires p.timestamp >= cutoff && KeyOf(p) == k
    requires k !in MarkedKeys(st.raw, p, cutoff, directCutoff)
    ensures InKey(k)(EntryOf(p)) && p.timestamp !in ToMap(SeriesOf(st.raw, k.series))
  {
    hide ToMap;
    var v := SeriesOf(st.raw, k.series);
    InMinute(EntryOf(p), p.series, k);
    assert p.timestamp in ToMap(v) ==> p.labelsHash in Marks(v, EntryOf(p), directCutoff);
  }

  lemma MissedPoint(st: State, p: Point, k: HotKey, cutoff: int)
    requires RawOrdered(st.raw) && Accounts(st, k)
    requires p.timestamp >= cutoff && p.series == k.series && KeyOf(p) != k && !InKey(k)(EntryOf(p))
    requires var v := SeriesOf(st.raw, k.series);
             p.timestamp in ToMap(v) ==> ToMap(v)[p.timestamp].timestamp == p.timestamp && !InKey(k)(ToMap(v)[p.timestamp])
    ensures Accounts(PutPoint(st, p, cutoff), k)
  {
    hide Upsert, ToMap, Pick, AddPoint, Fold;
    var v, f, e := SeriesOf(st.raw, k.series), FlushedOf(st, k), EntryOf(p);
    PickUpsertUnseen(v, e, InKey(k));
    PickUpsertUnseen(v, e, InPart(k, f, true));
    PickUpsertUnseen(v, e, InPart(k, f, false));
    UpsertUpdatesMap(v, e);
    assert SeriesOf(PutRaw(st.raw, p, cutoff), k.series) == Upsert(v, e);
  }

  lemma NewStamp(st: State, p: Point, k: HotKey, cutoff: int)
    requires RawOrdered(st.raw) && Accounts(st, k)
    requires p.timestamp >= cutoff && KeyOf(p) == k && InKey(k)(EntryOf(p))
    requires p.timestamp !in ToMap(SeriesOf(st.raw, k.series))
    ensures Accounts(PutPoint(st, p, cutoff), k)
  {
    hide Upsert, ToMap, Pick, AddPoint, Fold;
    var v, f, e := SeriesOf(st.raw, k.series), FlushedOf(st, k), EntryOf(p);
    UpsertUpdatesMap(v, e);
    assert SeriesOf(PutRaw(st.raw, p, cutoff), k.series) == Upsert(v, e);
    if k in st.replace {
      SummarizeUpsertNew(v, e, InKey(k));
    } else {
      assert e.timestamp !in f;
      SummarizeUpsertNew(v, e, InPart(k, f, false));
      PickUpsertUnseen(v, e, InPart(k, f, true));
    }
  }

  // ---- a whole batch --------------------------------------------------------------------------

  function PutPoints(st: State, points: seq<Point>, cutoff: int): State {
    st.(raw := PutAll(st.raw, points, cutoff), hot := AddHotAll(st.hot, points))
  }

  lemma {:induction false} BatchKeepsOrder(raw: RawWindow, points: seq<Point>, cutoff: int)
    requires RawOrdered(raw)
    ensures RawOrdered(PutAll(raw, points, cutoff))
  {
    if points != [] {
      BatchKeepsOrder(raw, points[..|points| - 1], cutoff);
      PutKeepsOrder(PutAll(raw, points[..|points| - 1], cutoff), points[|points| - 1], cutoff);
    }
  }

  lemma {:induction false} BatchKeepsAccount(st: State, points: seq<Point>, k: HotKey, cutoff: int, directCutoff: int)
    requires RawOrdered(st.raw) && Accounts(st, k)
    requires cutoff % MINUTE == 0 && k.bucket >= cutoff
    requires k !in RebuildKeys(st.raw, points, cutoff, directCutoff)
    ensures Accounts(PutPoints(st, points, cutoff), k)
  {
    hide PutRaw, AddHot, MarkedKeys, Accounts;
    if points == [] {
      assert PutPoints(st, points, cutoff) == st;
    } else {
      var init := points[..|points| - 1];
      BatchKeepsAccount(st, init, k, cutoff, directCutoff);
      BatchKeepsOrder(st.raw, init, cutoff);
      PutKeepsAccount(PutPoints(st, init, cutoff), points[|points| - 1], k, cutoff, directCutoff);
      assert PutPoints(st, points, cutoff) == PutPoint(PutPoints(st, init, cutoff), points[|points| - 1], cutoff);
    }
  }

  /** Ingesting a batch, with its rebuilds, keeps every minute of the new window accounted for. */
  lemma IngestKeepsAccount(st: State, points: seq<Point>, now: int, k: HotKey)
    requires RawOrdered(st.raw) && Accounts(st, k) && k.bucket >= RawCutoff(now)
    ensures Accounts(Ingest(st, points, now), k)
  {
    hide Accounts, Trim, PutAll, AddHotAll, RebuildKeys, MinuteSummary;
    var cutoff := RawCutoff(now);
    var trimmed := st.(raw := Trim(st.raw, cutoff));
    var keys := RebuildKeys(trimmed.raw, points, cutoff, DirectCutoff(now));
    TrimKeepsAccount(st, k, cutoff);
    TrimKeepsOrder(st.raw, cutoff);
    if k in keys {
      RebuiltAccounts(Ingest(st, points, now), k);
    } else {
      BatchKeepsAccount(trimmed, points, k, cutoff, DirectCutoff(now));
      RebuildElsewhere(PutPoints(trimmed, points, cutoff), keys, k);
    }
  }

  /** A point forces minute bucket `k` to be rebuilt: it rewrites a sample, from the label set of the old
      one or into its own, or it comes more than a minute late. */
  ghost predicate Forces(raw: RawWindow, p: Point, now: int, k: HotKey) {
    var held := ToMap(SeriesOf(raw, p.series));
    && p.timestamp >= RawCutoff(now) && k.series == p.series && k.bucket == BucketStart(p.timestamp, 60_000)
    && if p.timestamp in held then k.labelsHash == held[p.timestamp].labels.hash || k.labelsHash == p.labelsHash
       else p.timestamp < now - 60_000 && k.labelsHash == p.labelsHash
  }

  /** The buckets a batch rebuilds are those some point of it forces, given the points before it. */
  lemma {:induction false} RebuildsForced(raw: RawWindow, points: seq<Point>, now: int, k: HotKey)
    ensures k in RebuildKeys(raw, points, RawCutoff(now), DirectCutoff(now)) <==>
            exists i :: 0 <= i < |points| && Forces(PutAll(raw, points[..i], RawCutoff(now)), points[i], now, k)
  {
    hide PutAll, RawCutoff, BucketStart, ToMap, Forces, MarkedKeys, DirectCutoff, SeriesOf;
    if points != [] {
      var n := |points| - 1;
      var init, p := points[..n], points[n];
      RebuildsForced(raw, init, now, k);
      assert forall i :: 0 <= i < n ==> init[..i] == points[..i] && init[i] == points[i];
      MarkedIffForced(PutAll(raw, init, RawCutoff(now)), p, now, k);
      if i :| 0 <= i < n && Forces(PutAll(raw, init[..i], RawCutoff(now)), init[i], now, k) {
        assert Forces(PutAll(raw, points[..i], RawCutoff(now)), points[i], now, k);
      }
      if i :| 0 <= i < |points| && Forces(PutAll(raw, points[..i], RawCutoff(now)), points[i], now, k) {
        if i < n {
          assert Forces(PutAll(raw, init[..i], RawCutoff(now)), init[i], now, k);
        }
      }
    }
  }

  lemma MarkedIffForced(raw: RawWindow, p: Point, now: int, k: HotKey)
    ensures k in MarkedKeys(raw, p, RawCutoff(now), DirectCutoff(now)) <==> Forces(raw, p, now, k)
  {
    hide RawCutoff, BucketStart, ToMap;
  }

  /** A batch leaves every bucket it forces to be rebuilt as the aggregate of its raw minute, flagged to
      replace its row; a bucket it does not force keeps its flag. */
  lemma ForcedIsRebuilt(st: State, points: seq<Point>, now: int, k: HotKey)
    ensures var after, trimmed := Ingest(st, points, now), Trim(st.raw, RawCutoff(now));
            var forced := exists i :: 0 <= i < |points| && Forces(PutAll(trimmed, points[..i], RawCutoff(now)), points[i], now, k);
            && (k in after.replace <==> k in st.replace || forced)
            && (forced ==> k in after.hot && after.hot[k] == MinuteSummary(after.raw, k))
  {
    hide PutAll, RawCutoff, Forces, RebuildKeys, Trim, AddHotAll, MinuteSummary;
    RebuildsForced(Trim(st.raw, RawCutoff(now)), points, now, k);
  }

  lemma RebuiltAccounts(st: State, k: HotKey)
    requires k in st.replace && k in st.hot && st.hot[k] == MinuteSummary(st.raw, k)
    ensures Accounts(st, k)
  {
  }

  lemma RebuildElsewhere(st: State, keys: set<HotKey>, k: HotKey)
    requires Accounts(st, k) && k !in keys
    ensures Accounts(st.(hot := Rebuilt(st.hot, st.raw, keys), replace := st.replace + keys), k)
  {
    hide Summarize, ToMap;
  }
}
