/** The minute layer as a state machine on values: the raw window, the pending (hot) minute
    buckets, their replace flags and the persisted minute rows, with the meaning of one key. */
module Window {
  import opened Words
  import opened Clock
  import opened Timeline
  import opened RawSeries
  import opened Selection
  import opened Rollup

  datatype SeriesKey = SeriesKey(metricName: string, entityID: string, tagsHash: string)

  datatype HotKey = HotKey(series: SeriesKey, labelsHash: string, bucket: int)

  datatype Point = Point(series: SeriesKey, tagsJSON: string, labelsHash: string, labelsJSON: string,
                         timestamp: int64, value: uint64)

  const DIRECT_RETENTION: int := 60_000
  const RAW_RETENTION: int := 600_000

  function DirectCutoff(now: int): int {
    now - DIRECT_RETENTION
  }

  /** Keeps the whole oldest minute, so that a late write can still rebuild it. */
  function RawCutoff(now: int): int {
    BucketStart(now - RAW_RETENTION, MINUTE)
  }

  function EntryOf(p: Point): Entry {
    Sample(p.timestamp, p.value, LabelSet(p.labelsHash, p.labelsJSON))
  }

  function KeyOf(p: Point): HotKey {
    HotKey(p.series, p.labelsHash, BucketStart(p.timestamp, MINUTE))
  }

  // ---- the raw window -----------------------------------------------------------------------

  type RawWindow = map<SeriesKey, seq<Entry>>

  function SeriesOf(raw: RawWindow, s: SeriesKey): seq<Entry> {
    if s in raw then raw[s] else []
  }

  function Trim(raw: RawWindow, cutoff: int): RawWindow {
    map s | s in raw && From(raw[s], cutoff) != [] :: From(raw[s], cutoff)
  }

  /** Points before the window are ignored by the raw half of a write. */
  function PutRaw(raw: RawWindow, p: Point, rawCutoff: int): RawWindow {
    if p.timestamp < rawCutoff then raw
    else raw[p.series := Upsert(SeriesOf(raw, p.series), EntryOf(p))]
  }

  function PutAll(raw: RawWindow, points: seq<Point>, rawCutoff: int): RawWindow {
    if points == [] then raw
    else PutRaw(PutAll(raw, points[..|points| - 1], rawCutoff), points[|points| - 1], rawCutoff)
  }

  /** The minute buckets one point forces to be rebuilt. */
  function MarkedKeys(raw: RawWindow, p: Point, rawCutoff: int, directCutoff: int): set<HotKey> {
    if p.timestamp < rawCutoff then {}
    else set h | h in Marks(SeriesOf(raw, p.series), EntryOf(p), directCutoff) ::
           HotKey(p.series, h, BucketStart(p.timestamp, MINUTE))
  }

  function RebuildKeys(raw: RawWindow, points: seq<Point>, rawCutoff: int, directCutoff: int): set<HotKey> {
    if points == [] then {}
    else
      var init, p := points[..|points| - 1], points[|points| - 1];
      RebuildKeys(raw, init, rawCutoff, directCutoff)
      + MarkedKeys(PutAll(raw, init, rawCutoff), p, rawCutoff, directCutoff)
  }

  // ---- minute buckets ------------------------------------------------------------------------

  type Buckets = map<HotKey, Summary>

  function BucketOf(buckets: Buckets, k: HotKey): Summary {
    if k in buckets then buckets[k] else EMPTY
  }

  function InKey(k: HotKey): Entry -> bool {
    (e: Entry) => e.labels.hash == k.labelsHash && BucketStart(e.timestamp, MINUTE) == k.bucket
  }

  /** What the raw window says about one minute bucket. */
  function MinuteSummary(raw: RawWindow, k: HotKey): Summary {
    Summarize(SeriesOf(raw, k.series), InKey(k))
  }

  function AddHot(hot: Buckets, p: Point): Buckets {
    hot[KeyOf(p) := AddPoint(BucketOf(hot, KeyOf(p)), Observe(EntryOf(p)))]
  }

  function AddHotAll(hot: Buckets, points: seq<Point>): Buckets {
    if points == [] then hot else AddHot(AddHotAll(hot, points[..|points| - 1]), points[|points| - 1])
  }

  function Rebuilt(hot: Buckets, raw: RawWindow, keys: set<HotKey>): Buckets {
    map k | k in hot.Keys + keys :: if k in keys then MinuteSummary(raw, k) else hot[k]
  }

  // ---- one transaction ---------------------------------------------------------------------------

  /** `order` lists the elements of `keys` once each: the iteration order of a Go map. */
  ghost predicate Enumerates(order: seq<HotKey>, keys: set<HotKey>) {
    && (forall i :: 0 <= i < |order| ==> order[i] in keys)
    && (forall k :: k in keys ==> k in order)
    && (forall i, j :: 0 <= i < j < |order| ==> order[i] != order[j])
  }

  function StoredKey(k: HotKey): HotKey {
    k.(bucket := NormalizeBucket(k.bucket))
  }

  /** Merge-mode buckets are merged into the row stored under the normalised bucket. */
  function MergePass(rows: Buckets, hot: Buckets, replace: set<HotKey>, order: seq<HotKey>): Buckets {
    if order == [] then rows
    else
      var r, k := MergePass(rows, hot, replace, order[..|order| - 1]), order[|order| - 1];
      if k in replace then r
      else
        var s := StoredKey(k);
        r[s := if s in r then Merge(r[s], BucketOf(hot, k)) else BucketOf(hot, k)]
  }

  /** Replace-mode buckets overwrite their row, or delete it when they are empty. */
  function ReplacePass(rows: Buckets, hot: Buckets, replace: set<HotKey>, order: seq<HotKey>): Buckets {
    if order == [] then rows
    else
      var r, k := ReplacePass(rows, hot, replace, order[..|order| - 1]), order[|order| - 1];
      if k !in replace then r
      else if BucketOf(hot, k).count == 0 then r - {k}
      else r[k := BucketOf(hot, k)]
  }

  // ---- the state and its steps --------------------------------------------------------------------

  /** `flushed` records, for the proof only, which timestamps a persisted row accounts for. */
  datatype State = State(raw: RawWindow, hot: Buckets, replace: set<HotKey>, rows: Buckets,
                         flushed: map<HotKey, set<int>>)

  const START: State := State(map[], map[], {}, map[], map[])

  function FlushedOf(st: State, k: HotKey): set<int> {
    if k in st.flushed then st.flushed[k] else {}
  }

  /** Raw upserts, hot additions and rebuilds of one batch; no transaction yet. */
  function Ingest(st: State, points: seq<Point>, now: int): State {
    var cutoff := RawCutoff(now);
    var trimmed := Trim(st.raw, cutoff);
    var keys := RebuildKeys(trimmed, points, cutoff, DirectCutoff(now));
    var raw := PutAll(trimmed, points, cutoff);
    State(raw, Rebuilt(AddHotAll(st.hot, points), raw, keys), st.replace + keys, st.rows, st.flushed)
  }

  function ClosedKeys(hot: Buckets, now: int): set<HotKey> {
    set k | k in hot && k.bucket < BucketStart(now, MINUTE)
  }

  /** The pending buckets of minutes that are over. */
  function ClosedBuckets(hot: Buckets, now: int): Buckets {
    map k | k in hot && k.bucket < BucketStart(now, MINUTE) :: hot[k]
  }

  function StampsOf(raw: RawWindow, k: HotKey): set<int> {
    var v := SeriesOf(raw, k.series);
    set i | 0 <= i < |v| && InKey(k)(v[i]) :: v[i].timestamp
  }

  /** Closed buckets move to the rows; a failed transaction puts every one of them back. */
  function FlushHot(st: State, now: int, ok: bool, order: seq<HotKey>): State {
    var closed := ClosedKeys(st.hot, now);
    if !ok then st
    else State(st.raw, st.hot - closed, st.replace - closed,
               ReplacePass(MergePass(st.rows, st.hot, st.replace, order), st.hot, st.replace, order),
               map k | k in st.flushed.Keys + closed :: if k in closed then StampsOf(st.raw, k) else st.flushed[k])
  }

  // ---- what one key means ---------------------------------------------------------------------------

  /** Applying the pending bucket to the persisted row: replace it, or merge into it. */
  function Denote(st: State, k: HotKey): Summary {
    if k in st.replace then BucketOf(st.hot, k) else Merge(BucketOf(st.rows, k), BucketOf(st.hot, k))
  }

  function InPart(k: HotKey, stamps: set<int>, inside: bool): Entry -> bool {
    (e: Entry) => InKey(k)(e) && ((e.timestamp in stamps) == inside)
  }

  /** The row and the pending bucket account for disjoint parts of the raw minute. */
  ghost predicate Accounts(st: State, k: HotKey) {
    var v, f := SeriesOf(st.raw, k.series), FlushedOf(st, k);
    if k in st.replace then k in st.hot && st.hot[k] == MinuteSummary(st.raw, k)
    else
      && (forall t :: t in f ==> t in ToMap(v) && InKey(k)(ToMap(v)[t]))
      && BucketOf(st.rows, k) == Summarize(v, InPart(k, f, true))
      && BucketOf(st.hot, k) == Summarize(v, InPart(k, f, false))
  }

  lemma AccountsDenotes(st: State, k: HotKey)
    requires Accounts(st, k) && Ascending(SeriesOf(st.raw, k.series))
    ensures Denote(st, k) == MinuteSummary(st.raw, k)
  {
    if k !in st.replace {
      var f := FlushedOf(st, k);
      SummarizeUnion(SeriesOf(st.raw, k.series), InPart(k, f, true), InPart(k, f, false), InKey(k));
    }
  }
}
