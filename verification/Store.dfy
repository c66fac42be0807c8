/** The store as the program runs it: raw series, pending buckets and persisted rows changed in
    place, tied at every moment to the run of steps that led there. */
module Store {
  import opened Words
  import opened Clock
  import opened Timeline
  import opened RawSeries
  import opened Selection
  import opened Rollup
  import opened Window
  import opened WindowSteps
  import opened WindowFlush
  import opened WindowRuns
  import opened Aggregate
  import opened SeriesRead
  import opened SeriesResult
  import opened RawTable

  /** A bucket taken out of the hot table, with its replace flag. */
  datatype HotRollup = HotRollup(key: HotKey, bucket: Summary, overwrites: bool)

  function KeysIn(closed: seq<HotRollup>): (keys: seq<HotKey>)
    ensures |keys| == |closed| && forall i :: 0 <= i < |closed| ==> keys[i] == closed[i].key
  {
    seq(|closed|, i requires 0 <= i < |closed| => closed[i].key)
  }

  /** `closed` carries the entries the tables had for its keys. */
  ghost predicate TakenFrom(closed: seq<HotRollup>, hot: Buckets, replace: set<HotKey>) {
    forall i :: 0 <= i < |closed| ==>
      closed[i].key in hot && closed[i].bucket == hot[closed[i].key] && (closed[i].overwrites <==> closed[i].key in replace)
  }

  function RestoreAll(hot: Buckets, replace: set<HotKey>, closed: seq<HotRollup>): (Buckets, set<HotKey>) {
    if closed == [] then (hot, replace)
    else
      var (h, r) := RestoreAll(hot, replace, closed[..|closed| - 1]);
      var item := closed[|closed| - 1];
      RestoreOne(h, r, item.key, item.bucket, item.overwrites)
  }

  /** The taken buckets by key. */
  function BucketsIn(closed: seq<HotRollup>): Buckets {
    if closed == [] then map[]
    else BucketsIn(closed[..|closed| - 1])[closed[|closed| - 1].key := closed[|closed| - 1].bucket]
  }

  lemma {:induction false} BucketsInTaken(closed: seq<HotRollup>, hot: Buckets, replace: set<HotKey>)
    requires TakenFrom(closed, hot, replace)
    ensures BucketsIn(closed) == map k | k in hot && k in KeySet(closed) :: hot[k]
  {
    if closed != [] {
      KeySetLast(closed);
      BucketsInTaken(closed[..|closed| - 1], hot, replace);
    }
  }

  lemma BucketsTaken(closed: seq<HotRollup>, hot: Buckets, replace: set<HotKey>, now: int)
    requires TakenFrom(closed, hot, replace) && Enumerates(KeysIn(closed), ClosedKeys(hot, now))
    ensures BucketsIn(closed) == ClosedBuckets(hot, now)
  {
    PutBackEverything(closed, ClosedKeys(hot, now));
    BucketsInTaken(closed, hot, replace);
  }

  function KeySet(closed: seq<HotRollup>): set<HotKey> {
    set i | 0 <= i < |closed| :: closed[i].key
  }

  lemma KeySetLast(closed: seq<HotRollup>)
    requires closed != []
    ensures KeySet(closed) == KeySet(closed[..|closed| - 1]) + {closed[|closed| - 1].key}
  {
    var init := closed[..|closed| - 1];
    forall k | k in KeySet(init) ensures k in KeySet(closed) {
      var i :| 0 <= i < |init| && init[i].key == k;
      assert closed[i].key == k;
    }
    assert closed[|closed| - 1].key in KeySet(closed);
  }

  /** Restoring onto untouched tables puts back exactly what was taken. */
  lemma {:induction false} RestoreUndoesTake(hot: Buckets, replace: set<HotKey>, closed: seq<HotRollup>, gone: set<HotKey>)
    requires TakenFrom(closed, hot, replace)
    requires DistinctKeys(closed) && KeySet(closed) <= gone
    ensures RestoreAll(hot - gone, replace - gone, closed) == (hot - (gone - KeySet(closed)), replace - (gone - KeySet(closed)))
  {
    hide Merge;
    if closed == [] {
      assert gone - KeySet(closed) == gone;
    } else {
      var init, item := closed[..|closed| - 1], closed[|closed| - 1];
      KeySetLast(closed);
      RestoreUndoesTake(hot, replace, init, gone);
      KeyNotBefore(closed);
      assert gone - KeySet(init) == (gone - KeySet(closed)) + {item.key};
      assert hot - (gone - KeySet(closed)) == (hot - (gone - KeySet(init)))[item.key := hot[item.key]];
      assert replace - (gone - KeySet(closed)) ==
             if item.overwrites then (replace - (gone - KeySet(init))) + {item.key} else replace - (gone - KeySet(init));
    }
  }

  lemma KeyNotBefore(closed: seq<HotRollup>)
    requires closed != [] && DistinctKeys(closed)
    ensures closed[|closed| - 1].key !in KeySet(closed[..|closed| - 1])
  {
  }

  ghost predicate DistinctKeys(closed: seq<HotRollup>) {
    forall i, j :: 0 <= i < j < |closed| ==> closed[i].key != closed[j].key
  }

  /** The pending work at an item's key cannot tie with it, or does not merge with it. */
  predicate Untied(item: HotRollup, hot: Buckets, replace: set<HotKey>) {
    item.key !in hot || item.key in replace || item.overwrites || NoTies(hot[item.key], item.bucket)
  }

  /** A restored key means the taken bucket followed by the work that was pending. */
  ghost predicate ItemComposed(rows: Buckets, hot: Buckets, replace: set<HotKey>, item: HotRollup,
                               hot': Buckets, replace': set<HotKey>) {
    var row := BucketOf(rows, item.key);
    var restored := ApplyPending(row, hot', replace', item.key);
    var meant := ApplyPending(Apply(row, item.bucket, item.overwrites), hot, replace, item.key);
    SameUpToTies(restored, meant) && (Untied(item, hot, replace) ==> restored == meant)
  }

  /** Putting `closed` back composes every key of it, and leaves every other key as it was. */
  ghost predicate Composed(rows: Buckets, hot: Buckets, replace: set<HotKey>, closed: seq<HotRollup>,
                           hot': Buckets, replace': set<HotKey>) {
    && (forall i :: 0 <= i < |closed| ==> ItemComposed(rows, hot, replace, closed[i], hot', replace'))
    && (forall k :: k !in KeySet(closed) ==> SamePending(hot, replace, hot', replace', k))
  }

  /** Restoring a whole taken list over tables that may hold any new pending work is sequential
      composition, key by key: first what was taken, then what has arrived since. */
  lemma {:induction false} RestoreComposesAll(rows: Buckets, hot: Buckets, replace: set<HotKey>, closed: seq<HotRollup>)
    requires AllWellFormed(rows) && AllWellFormed(hot) && replace <= hot.Keys && DistinctKeys(closed)
    requires forall i :: 0 <= i < |closed| ==> WellFormed(closed[i].bucket)
    ensures var (hot', replace') := RestoreAll(hot, replace, closed);
            AllWellFormed(hot') && replace' <= hot'.Keys && Composed(rows, hot, replace, closed, hot', replace')
  {
    hide WellFormed, RestoreOne, ItemComposed, SameElsewhere;
    if closed != [] {
      var init, item := closed[..|closed| - 1], closed[|closed| - 1];
      RestoreComposesAll(rows, hot, replace, init);
      var (h, r) := RestoreAll(hot, replace, init);
      var (h', r') := RestoreOne(h, r, item.key, item.bucket, item.overwrites);
      KeySetLast(closed);
      KeyNotBefore(closed);
      ItemRestored(rows, hot, replace, item, h, r);
      forall i | 0 <= i < |init| ensures ItemComposed(rows, hot, replace, init[i], h', r') {
        EarlierComposed(rows, hot, replace, init[i], h, r, h', r', item.key);
      }
      forall k | k !in KeySet(closed) ensures SamePending(hot, replace, h', r', k) {
        SameThrough(hot, replace, h, r, h', r', item.key, k);
      }
    }
  }

  lemma ItemRestored(rows: Buckets, hot: Buckets, replace: set<HotKey>, item: HotRollup, h: Buckets, r: set<HotKey>)
    requires AllWellFormed(rows) && AllWellFormed(h) && r <= h.Keys && WellFormed(item.bucket)
    requires SamePending(hot, replace, h, r, item.key)
    ensures var (h', r') := RestoreOne(h, r, item.key, item.bucket, item.overwrites);
            && AllWellFormed(h') && r' <= h'.Keys && SameElsewhere(h, r, h', r', item.key)
            && ItemComposed(rows, hot, replace, item, h', r')
  {
    hide Merge, Apply, RestoreOne, SameUpToTies, NoTies, SameElsewhere;
    RestoreComposes(BucketOf(rows, item.key), h, r, item.key, item.bucket, item.overwrites);
  }

  lemma EarlierComposed(rows: Buckets, hot: Buckets, replace: set<HotKey>, item: HotRollup, h: Buckets, r: set<HotKey>,
                        h': Buckets, r': set<HotKey>, k: HotKey)
    requires ItemComposed(rows, hot, replace, item, h, r) && SameElsewhere(h, r, h', r', k) && item.key != k
    ensures ItemComposed(rows, hot, replace, item, h', r')
  {
    hide Merge, Apply, SameUpToTies, NoTies;
    assert SamePending(h, r, h', r', item.key);
  }

  lemma SameThrough(hot: Buckets, replace: set<HotKey>, h: Buckets, r: set<HotKey>, h': Buckets, r': set<HotKey>,
                    changed: HotKey, k: HotKey)
    requires SamePending(hot, replace, h, r, k) && SameElsewhere(h, r, h', r', changed) && k != changed
    ensures SamePending(hot, replace, h', r', k)
  {
    assert SamePending(h, r, h', r', k);
  }

  /** A failed flush seen from the outside: closed buckets are taken, any work arrives, and the
      restore leaves every taken key meaning what it meant before followed by that work. */
  lemma FailedFlushComposes(before: State, closed: seq<HotRollup>, hot: Buckets, replace: set<HotKey>, after: State)
    requires AllWellFormed(before.rows) && AllWellFormed(before.hot) && AllWellFormed(hot) && replace <= hot.Keys
    requires TakenFrom(closed, before.hot, before.replace) && DistinctKeys(closed)
    requires after.rows == before.rows && (after.hot, after.replace) == RestoreAll(hot, replace, closed)
    ensures forall k :: k in KeySet(closed) ==>
              SameUpToTies(Denote(after, k), ApplyPending(Denote(before, k), hot, replace, k))
    ensures forall i :: 0 <= i < |closed| && Untied(closed[i], hot, replace) ==>
              Denote(after, closed[i].key) == ApplyPending(Denote(before, closed[i].key), hot, replace, closed[i].key)
    ensures forall k :: k !in KeySet(closed) ==>
              Denote(after, k) == Denote(before.(hot := hot, replace := replace), k)
  {
    hide Merge, WellFormed, RestoreAll, SameUpToTies, NoTies;
    RestoreComposesAll(before.rows, hot, replace, closed);
    forall i | 0 <= i < |closed|
      ensures SameUpToTies(Denote(after, closed[i].key), ApplyPending(Denote(before, closed[i].key), hot, replace, closed[i].key))
      ensures Untied(closed[i], hot, replace) ==>
                Denote(after, closed[i].key) == ApplyPending(Denote(before, closed[i].key), hot, replace, closed[i].key)
    {
      DenoteIsPending(before, closed[i].key);
      DenoteIsPending(after, closed[i].key);
    }
  }

  lemma DenoteIsPending(st: State, k: HotKey)
    requires AllWellFormed(st.rows) && (k in st.replace ==> k in st.hot)
    ensures Denote(st, k) == ApplyPending(BucketOf(st.rows, k), st.hot, st.replace, k)
  {
    if k !in st.hot {
      MergeUnit(BucketOf(st.rows, k));
    }
  }

  // ---- the table passes, one bucket at a time -----------------------------------------------------

  lemma MergePassGrow(rows: Buckets, hot: Buckets, replace: set<HotKey>, order: seq<HotKey>, i: int)
    requires 0 <= i < |order|
    ensures MergePass(rows, hot, replace, order[..i + 1]) ==
            (var r, k := MergePass(rows, hot, replace, order[..i]), order[i];
             if k in replace then r
             else r[StoredKey(k) := if StoredKey(k) in r then Merge(r[StoredKey(k)], BucketOf(hot, k)) else BucketOf(hot, k)])
  {
    hide Merge;
    assert order[..i + 1][..i] == order[..i];
  }

  lemma ReplacePassGrow(rows: Buckets, hot: Buckets, replace: set<HotKey>, order: seq<HotKey>, i: int)
    requires 0 <= i < |order|
    ensures ReplacePass(rows, hot, replace, order[..i + 1]) ==
            (var r, k := ReplacePass(rows, hot, replace, order[..i]), order[i];
             if k !in replace then r else if BucketOf(hot, k).count == 0 then r - {k} else r[k := BucketOf(hot, k)])
  {
    assert order[..i + 1][..i] == order[..i];
  }

  lemma {:induction false} RebuildKeysAligned(raw: RawWindow, points: seq<Point>, rawCutoff: int, directCutoff: int)
    ensures forall k :: k in RebuildKeys(raw, points, rawCutoff, directCutoff) ==> k.bucket % MINUTE == 0
  {
    if points != [] {
      RebuildKeysAligned(raw, points[..|points| - 1], rawCutoff, directCutoff);
    }
  }

  lemma RebuiltStep(hot: Buckets, raw: RawWindow, keys: set<HotKey>, k: HotKey)
    ensures Rebuilt(hot, raw, keys + {k}) == Rebuilt(hot, raw, keys)[k := MinuteSummary(raw, k)]
  {
    hide MinuteSummary;
  }

  class Store {
    const table: RawTable
    var hot: Buckets
    var hotReplace: set<HotKey>
    var rows: Buckets
    // For the proof: what each row accounts for, and every step taken so far.
    ghost var flushed: map<HotKey, set<int>>
    ghost var history: seq<Step>

    ghost function Snapshot(): State
      reads this, table
    {
      State(table.views, hot, hotReplace, rows, flushed)
    }

    ghost predicate Sound()
      reads this, table, Footprint(table.raw)
    {
      table.Valid() && hotReplace <= hot.Keys
    }

    ghost predicate Valid()
      reads this, table, Footprint(table.raw)
    {
      && Sound()
      && LegalRun(history) && Snapshot() == Run(history)
      && table.cutoff == DirectCutoff(TrimTime(history)) && TrimTime(history) <= LastTime(history)
    }

    constructor (ghost jsonOf: string -> string)
      ensures Valid() && history == [] && table.jsonOf == jsonOf
    {
      table := new RawTable(jsonOf, DirectCutoff(0));
      hot, hotReplace, rows := map[], {}, map[];
      flushed, history := map[], [];
    }

    // ---- hot buckets ---------------------------------------------------------------------------

    /** Adds every point of a batch to its minute bucket, late and expired ones included. */
    method AddHotPoints(points: seq<Point>)
      modifies this`hot
      ensures hot == AddHotAll(old(hot), points)
    {
      var i := 0;
      while i < |points|
        invariant 0 <= i <= |points|
        invariant hot == AddHotAll(old(hot), points[..i])
      {
        assert points[..i + 1][..i] == points[..i];
        var key := KeyOf(points[i]);
        var bucket := if key in hot then hot[key] else EMPTY;
        hot := hot[key := AddPoint(bucket, Observe(EntryOf(points[i])))];
        i := i + 1;
      }
      assert points[..i] == points;
    }

    /** Recomputes the marked minutes from the raw window; they will replace their rows. */
    method RebuildHotRollups(keys: set<HotKey>)
      requires table.Valid() && forall k :: k in keys ==> k.bucket % MINUTE == 0
      modifies this`hot, this`hotReplace
      ensures hot == Rebuilt(old(hot), table.views, keys) && hotReplace == old(hotReplace) + keys
    {
      hide AllHold, MinuteSummary;
      StoreApart(this, table.raw);
      var left := keys;
      while left != {}
        invariant table.Valid() && left <= keys
        invariant hot == Rebuilt(old(hot), table.views, keys - left)
        invariant hotReplace == old(hotReplace) + (keys - left)
        decreases left
      {
        var k :| k in left;
        var bucket := table.BuildMinute(k);
        RebuiltStep(old(hot), table.views, keys - left, k);
        assert keys - (left - {k}) == (keys - left) + {k};
        hot := hot[k := bucket];
        hotReplace := hotReplace + {k};
        left := left - {k};
      }
    }

    /** Both halves of a batch write, up to the point where closed buckets are flushed. */
    method IngestBatch(points: seq<Point>, rawNow: int)
      requires Sound() && table.cutoff <= DirectCutoff(rawNow) && table.HasRoom(|points|)
      requires forall i :: 0 <= i < |points| ==> points[i].labelsJSON == table.jsonOf(points[i].labelsHash)
      modifies this`hot, this`hotReplace, table, Footprint(table.raw)
      ensures table.Valid() && table.cutoff == DirectCutoff(rawNow)
      ensures Snapshot() == Ingest(old(Snapshot()), points, rawNow)
    {
      hide AllHold, Trim, PutAll, RebuildKeys, AddHotAll, Rebuilt;
      RebuildKeysAligned(Trim(table.views, RawCutoff(rawNow)), points, RawCutoff(rawNow), DirectCutoff(rawNow));
      var rebuild := table.WriteRawPointsAt(points, rawNow);
      StoreApart(this, table.raw);
      AddHotPoints(points);
      RebuildHotRollups(rebuild);
    }

    // ---- flushing ---------------------------------------------------------------------------------

    method TakeClosed(currentBucket: int) returns (closed: seq<HotRollup>)
      modifies this`hot, this`hotReplace
      ensures var keys := set k | k in old(hot) && k.bucket < currentBucket;
              Enumerates(KeysIn(closed), keys) && hot == old(hot) - keys && hotReplace == old(hotReplace) - keys
      ensures TakenFrom(closed, old(hot), old(hotReplace))
    {
      closed := [];
      var keys := set k | k in hot && k.bucket < currentBucket;
      var left := keys;
      while left != {}
        invariant left <= keys && Enumerates(KeysIn(closed), keys - left)
        invariant TakenFrom(closed, old(hot), old(hotReplace))
        invariant hot == old(hot) - (keys - left) && hotReplace == old(hotReplace) - (keys - left)
        decreases left
      {
        var k :| k in left;
        assert KeysIn(closed + [HotRollup(k, hot[k], k in hotReplace)]) == KeysIn(closed) + [k];
        closed := closed + [HotRollup(k, hot[k], k in hotReplace)];
        hot := hot - {k};
        hotReplace := hotReplace - {k};
        left := left - {k};
      }
    }

    method RestoreHot(closed: seq<HotRollup>)
      modifies this`hot, this`hotReplace
      ensures (hot, hotReplace) == RestoreAll(old(hot), old(hotReplace), closed)
    {
      hide Merge;
      var i := 0;
      while i < |closed|
        invariant 0 <= i <= |closed|
        invariant (hot, hotReplace) == RestoreAll(old(hot), old(hotReplace), closed[..i])
      {
        assert closed[..i + 1][..i] == closed[..i];
        var item := closed[i];
        if item.key !in hot {
          hot := hot[item.key := item.bucket];
          if item.overwrites {
            hotReplace := hotReplace + {item.key};
          }
        } else if item.key !in hotReplace {
          if item.overwrites {
            hot := hot[item.key := Merge(item.bucket, hot[item.key])];
            hotReplace := hotReplace + {item.key};
          } else {
            hot := hot[item.key := Merge(hot[item.key], item.bucket)];
          }
        }
        i := i + 1;
      }
      assert closed[..i] == closed;
    }

    /** Merges the buckets without a replace flag into their rows, inside a transaction. */
    static method MergeMinutes(tx0: Buckets, closed: seq<HotRollup>, ghost hot0: Buckets, ghost replace0: set<HotKey>)
        returns (tx: Buckets)
      requires TakenFrom(closed, hot0, replace0)
      ensures tx == MergePass(tx0, hot0, replace0, KeysIn(closed))
    {
      hide Merge;
      tx := tx0;
      ghost var order := KeysIn(closed);
      var i := 0;
      while i < |closed|
        invariant 0 <= i <= |closed|
        invariant tx == MergePass(tx0, hot0, replace0, order[..i])
      {
        MergePassGrow(tx0, hot0, replace0, order, i);
        if !closed[i].overwrites {
          var key := StoredKey(closed[i].key);
          tx := tx[key := if key in tx then Merge(tx[key], closed[i].bucket) else closed[i].bucket];
        }
        i := i + 1;
      }
      assert order[..i] == order;
    }

    /** Overwrites or deletes the rows of buckets with a replace flag, inside a transaction. */
    static method ReplaceMinutes(tx0: Buckets, closed: seq<HotRollup>, ghost hot0: Buckets, ghost replace0: set<HotKey>)
        returns (tx: Buckets)
      requires TakenFrom(closed, hot0, replace0)
      ensures tx == ReplacePass(tx0, hot0, replace0, KeysIn(closed))
    {
      tx := tx0;
      ghost var order := KeysIn(closed);
      var i := 0;
      while i < |closed|
        invariant 0 <= i <= |closed|
        invariant tx == ReplacePass(tx0, hot0, replace0, order[..i])
      {
        ReplacePassGrow(tx0, hot0, replace0, order, i);
        if closed[i].overwrites {
          if closed[i].bucket.count == 0 {
            tx := tx - {closed[i].key};
          } else {
            tx := tx[closed[i].key := closed[i].bucket];
          }
        }
        i := i + 1;
      }
      assert order[..i] == order;
    }

    /** One transaction: all row changes become visible together or not at all. */
    method PersistHot(closed: seq<HotRollup>, commit: bool, ghost hot0: Buckets, ghost replace0: set<HotKey>)
        returns (ok: bool)
      requires TakenFrom(closed, hot0, replace0)
      modifies this`rows
      ensures ok == commit
      ensures rows == if commit then ReplacePass(MergePass(old(rows), hot0, replace0, KeysIn(closed)), hot0, replace0, KeysIn(closed))
                      else old(rows)
    {
      hide MergePass, ReplacePass;
      var tx := MergeMinutes(rows, closed, hot0, replace0);
      tx := ReplaceMinutes(tx, closed, hot0, replace0);
      if commit {
        rows := tx;
      }
      return commit;
    }

    /** Moves closed minutes into the rows; a failed transaction restores every one of them. Hands
        back the buckets it committed. */
    method FlushClosedHot(now: int, commit: bool) returns (ok: bool, committed: Buckets, ghost order: seq<HotKey>)
      requires hotReplace <= hot.Keys
      modifies this`hot, this`hotReplace, this`rows, this`flushed
      ensures Enumerates(order, ClosedKeys(old(hot), now))
      ensures Snapshot() == FlushHot(old(Snapshot()), now, commit, order)
      ensures ok <==> commit || ClosedKeys(old(hot), now) == {}
      ensures committed == if commit then ClosedBuckets(old(hot), now) else map[]
    {
      hide MergePass, ReplacePass, Merge;
      committed := map[];
      ghost var closedKeys := ClosedKeys(hot, now);
      var closed := TakeClosed(BucketStart(now, MINUTE));
      order := KeysIn(closed);
      if |closed| == 0 {
        NothingClosed(old(Snapshot()), now, commit, order);
        return true, map[], order;
      }
      assert order[0] in closedKeys;
      ok := PersistHot(closed, commit, old(hot), old(hotReplace));
      if !ok {
        RestoreHot(closed);
        PutBackEverything(closed, closedKeys);
        RestoreUndoesTake(old(hot), old(hotReplace), closed, closedKeys);
        return;
      }
      flushed := map k | k in flushed.Keys + closedKeys :: if k in closedKeys then StampsOf(table.views, k) else flushed[k];
      BucketsTaken(closed, old(hot), old(hotReplace), now);
      committed := BucketsIn(closed);
    }

    // ---- the public operations ------------------------------------------------------------------

    /** Writes one batch. The transaction of the flush at its end may fail. */
    method WriteBatch(points: seq<Point>, rawNow: int, hotNow: int, commit: bool)
        returns (ok: bool, committed: Buckets, ghost order: seq<HotKey>)
      requires Valid() && LastTime(history) <= rawNow <= hotNow && ClockInRange(rawNow) && ClockInRange(hotNow)
      requires table.HasRoom(|points|)
      requires forall i :: 0 <= i < |points| ==> points[i].labelsJSON == table.jsonOf(points[i].labelsHash)
      modifies this, table, Footprint(table.raw)
      ensures Valid()
      ensures var step := Step.Write(points, rawNow, hotNow, commit, order);
              && history == old(history) + [step]
              && (ok <==> Succeeds(Run(old(history)), step)) && committed == CommittedBy(Run(old(history)), step)
    {
      hide AllHold, Ingest, FlushHot, Run, LegalRun, TrimTime, LastTime, Enumerates, ClosedKeys, ClosedBuckets, Same;
      if |points| == 0 {
        order := AnyOrder(hot, hotNow);
        IdleTaken(history, rawNow, hotNow, commit, order);
        StoreApart(this, table.raw);
        history := history + [Step.Write(points, rawNow, hotNow, commit, order)];
        return true, map[], order;
      }
      ghost var st := Snapshot();
      IngestBatch(points, rawNow);
      StoreApart(this, table.raw);
      IngestKeepsReplace(st, points, rawNow);
      ok, committed, order := FlushClosedHot(hotNow, commit);
      FlushKeepsReplace(Ingest(st, points, rawNow), hotNow, commit, order);
      WriteTaken(history, st, points, rawNow, hotNow, commit, order);
      history := history + [Step.Write(points, rawNow, hotNow, commit, order)];
    }

    /** Trims the raw window and flushes closed minutes, for series that stopped reporting. */
    method Flush(now: int, commit: bool) returns (ok: bool, committed: Buckets, ghost order: seq<HotKey>)
      requires Valid() && LastTime(history) <= now && ClockInRange(now)
      modifies this, table, Footprint(table.raw)
      ensures Valid()
      ensures var step := Step.Flush(now, commit, order);
              && history == old(history) + [step]
              && (ok <==> Succeeds(Run(old(history)), step)) && committed == CommittedBy(Run(old(history)), step)
    {
      hide AllHold, Trim, FlushHot, Only, Run, LegalRun, TrimTime, LastTime, Enumerates, ClosedKeys, Same;
      ghost var st := Snapshot();
      var _ := table.TrimWindow(now);
      StoreApart(this, table.raw);
      ok, committed, order := FlushClosedHot(now, commit);
      FlushKeepsReplace(st.(raw := Trim(st.raw, RawCutoff(now))), now, commit, order);
      FlushTaken(history, st, now, commit, order);
      history := history + [Step.Flush(now, commit, order)];
    }
  }

  lemma NothingClosed(st: State, now: int, ok: bool, order: seq<HotKey>)
    requires order == [] && Enumerates(order, ClosedKeys(st.hot, now))
    ensures FlushHot(st, now, ok, order) == st && ClosedKeys(st.hot, now) == {}
  {
    var closed := ClosedKeys(st.hot, now);
    assert forall k :: k in closed ==> k in order;
    assert closed == {};
  }

  lemma PutBackEverything(closed: seq<HotRollup>, keys: set<HotKey>)
    requires Enumerates(KeysIn(closed), keys)
    ensures keys == KeySet(closed)
  {
    forall k | k in keys ensures k in KeySet(closed) {
      assert k in KeysIn(closed);
      var i :| 0 <= i < |KeysIn(closed)| && KeysIn(closed)[i] == k;
      assert closed[i].key == k;
    }
    forall k | k in KeySet(closed) ensures k in keys {
      var i :| 0 <= i < |closed| && closed[i].key == k;
      assert KeysIn(closed)[i] == k;
    }
  }

  /** A store is no part of the raw objects it refers to. */
  lemma StoreApart(store: Store, raw: SeriesMap)
    ensures store !in Footprint(raw)
  {
  }

  lemma IngestKeepsReplace(st: State, points: seq<Point>, now: int)
    requires st.replace <= st.hot.Keys
    ensures Ingest(st, points, now).replace <= Ingest(st, points, now).hot.Keys
  {
    hide RebuildKeys, PutAll, Trim, MinuteSummary;
    AddHotKeys(st.hot, points);
  }

  lemma {:induction false} AddHotKeys(hot: Buckets, points: seq<Point>)
    ensures hot.Keys <= AddHotAll(hot, points).Keys
  {
    if points != [] { AddHotKeys(hot, points[..|points| - 1]); }
  }

  /** What a step takes and commits, in terms of the pending buckets its flush finds. */
  ghost predicate Taken(st: State, step: Step, hot: Buckets, now: int) {
    && CommittedBy(st, step) == (if step.ok then ClosedBuckets(hot, now) else map[])
    && (Succeeds(st, step) <==> step.ok || ClosedKeys(hot, now) == {})
  }

  lemma NoneClosed(hot: Buckets, now: int)
    ensures ClosedBuckets(hot, now) == map[] <==> ClosedKeys(hot, now) == {}
  {
    assert ClosedBuckets(hot, now).Keys == ClosedKeys(hot, now);
  }

  lemma WriteTaken(before: seq<Step>, st: State, points: seq<Point>, rawNow: int, hotNow: int, ok: bool, order: seq<HotKey>)
    requires LegalRun(before) && st == Run(before) && LastTime(before) <= rawNow <= hotNow
    requires ClockInRange(rawNow) && ClockInRange(hotNow) && points != []
    requires Enumerates(order, ClosedKeys(Ingest(st, points, rawNow).hot, hotNow))
    ensures var after := before + [Step.Write(points, rawNow, hotNow, ok, order)];
            && LegalRun(after) && Run(after) == FlushHot(Ingest(st, points, rawNow), hotNow, ok, order)
            && TrimTime(after) == rawNow && LastTime(after) == hotNow
    ensures Taken(st, Step.Write(points, rawNow, hotNow, ok, order), Ingest(st, points, rawNow).hot, hotNow)
  {
    hide Ingest, FlushHot, Enumerates, ClosedKeys, ClosedBuckets;
    NoneClosed(Ingest(st, points, rawNow).hot, hotNow);
    assert (before + [Step.Write(points, rawNow, hotNow, ok, order)])[..|before|] == before;
  }

  lemma FlushTaken(before: seq<Step>, st: State, now: int, ok: bool, order: seq<HotKey>)
    requires LegalRun(before) && st == Run(before) && LastTime(before) <= now && ClockInRange(now)
    requires Enumerates(order, ClosedKeys(st.hot, now))
    ensures var after := before + [Step.Flush(now, ok, order)];
            && LegalRun(after) && Run(after) == FlushHot(st.(raw := Trim(st.raw, RawCutoff(now))), now, ok, order)
            && TrimTime(after) == now && LastTime(after) == now
    ensures Taken(st, Step.Flush(now, ok, order), st.hot, now)
  {
    hide Trim, FlushHot, Enumerates, ClosedKeys, ClosedBuckets;
    NoneClosed(st.hot, now);
    assert (before + [Step.Flush(now, ok, order)])[..|before|] == before;
  }

  lemma IdleTaken(before: seq<Step>, rawNow: int, hotNow: int, ok: bool, order: seq<HotKey>)
    requires LegalRun(before) && LastTime(before) <= rawNow <= hotNow && ClockInRange(rawNow) && ClockInRange(hotNow)
    requires Enumerates(order, ClosedKeys(Run(before).hot, hotNow))
    ensures var after := before + [Step.Write([], rawNow, hotNow, ok, order)];
            && LegalRun(after) && Run(after) == Run(before)
            && TrimTime(after) == TrimTime(before) && LastTime(after) == hotNow
  {
    hide Enumerates, ClosedKeys;
    assert (before + [Step.Write([], rawNow, hotNow, ok, order)])[..|before|] == before;
  }

  lemma FlushKeepsReplace(st: State, now: int, ok: bool, order: seq<HotKey>)
    requires st.replace <= st.hot.Keys
    ensures FlushHot(st, now, ok, order).replace <= FlushHot(st, now, ok, order).hot.Keys
    ensures FlushHot(st, now, ok, order).raw == st.raw
  {
    hide MergePass, ReplacePass;
  }
}
