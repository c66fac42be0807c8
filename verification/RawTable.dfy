/** The raw half of the store: every series of the window, written, trimmed and read in place. */
module RawTable {
  import opened Words
  import opened Clock
  import opened Timeline
  import opened RawSeries
  import opened Selection
  import opened Rollup
  import opened Window
  import opened WindowSteps

  type SeriesMap = map<SeriesKey, RawSeries>
  type Bounds = map<SeriesKey, int>

  // ---- many series at once -----------------------------------------------------------------------

  ghost predicate Apart(a: RawSeries, b: RawSeries) {
    a != b && a.compressed != b.compressed
  }

  /** No two series share an object. */
  ghost predicate Separate(raw: SeriesMap) {
    forall j, k :: j in raw && k in raw && j != k ==> Apart(raw[j], raw[k])
  }

  ghost function Footprint(raw: SeriesMap): set<object> {
    (set k | k in raw :: raw[k] as object) + (set k | k in raw :: raw[k].compressed as object)
  }

  /** The series is sound, split at the cutoff, and stands for `view` with at most `labels` label sets. */
  ghost predicate Holds(series: RawSeries, cutoff: int, view: seq<Entry>, labels: int, jsonOf: string -> string)
    reads series, series.compressed
  {
    && series.Valid() && series.jsonOf == jsonOf
    && series.SplitAt(cutoff) && series.View() == view && |series.labelHashes| <= labels
  }

  ghost predicate AllHold(raw: SeriesMap, cuts: Bounds, views: RawWindow, sizes: Bounds, jsonOf: string -> string)
    reads Footprint(raw)
  {
    && raw.Keys == cuts.Keys == views.Keys == sizes.Keys
    && Separate(raw)
    && forall k :: k in raw ==> Holds(raw[k], cuts[k], views[k], sizes[k], jsonOf)
  }

  method CompressSeries(series: RawSeries, before: int,
                        ghost cutoff: int, ghost view: seq<Entry>, ghost labels: int, ghost jsonOf: string -> string)
    requires Holds(series, cutoff, view, labels, jsonOf) && cutoff <= before
    modifies series, series.compressed
    ensures Holds(series, before, view, labels, jsonOf)
  {
    series.CompressBefore(before);
  }

  method PruneSeries(series: RawSeries, before: int,
                     ghost cutoff: int, ghost view: seq<Entry>, ghost labels: int, ghost jsonOf: string -> string)
      returns (deleted: int, empty: bool)
    requires Holds(series, cutoff, view, labels, jsonOf)
    modifies series, series.compressed
    ensures Holds(series, cutoff, From(view, before), labels, jsonOf)
    ensures deleted == |view| - |From(view, before)|
    ensures empty <==> From(view, before) == []
  {
    hide From;
    deleted := series.PruneBefore(before, cutoff);
    EmptyView(series);
    empty := series.compressed.count == 0 && |series.samples| == 0;
  }

  method WriteSeries(series: RawSeries, p: Point, directCutoff: int,
                     ghost view: seq<Entry>, ghost labels: int, ghost jsonOf: string -> string)
      returns (marks: set<string>, dirty: bool)
    requires Holds(series, directCutoff, view, labels, jsonOf) && labels < TWO_32
    requires p.labelsJSON == jsonOf(p.labelsHash)
    modifies series, series.compressed
    ensures Holds(series, directCutoff, Upsert(view, EntryOf(p)), labels + 1, jsonOf)
    ensures marks == Marks(view, EntryOf(p), directCutoff)
  {
    hide Upsert, Marks;
    marks, dirty := series.WritePoint(p.timestamp, p.value, p.labelsHash, p.labelsJSON, directCutoff);
  }

  method CompactSeries(series: RawSeries,
                       ghost cutoff: int, ghost view: seq<Entry>, ghost labels: int, ghost jsonOf: string -> string)
    requires Holds(series, cutoff, view, labels, jsonOf)
    modifies series, series.compressed
    ensures Holds(series, cutoff, view, labels, jsonOf)
  {
    series.CompactLabels(cutoff);
  }

  lemma ApartFrom(raw: SeriesMap, k: SeriesKey)
    requires Separate(raw) && k in raw
    ensures forall j :: j in raw && j != k ==> Apart(raw[j], raw[k])
  {
  }

  method NewSeries(tagsJSON: string, ghost cutoff: int, ghost jsonOf: string -> string) returns (series: RawSeries)
    ensures fresh(series) && fresh(series.compressed) && Holds(series, cutoff, [], 0, jsonOf)
  {
    series := new RawSeries(tagsJSON, jsonOf);
    NewSeriesHolds(series, cutoff, jsonOf);
  }

  /** Changing one series leaves what the others stand for alone. */
  method CompressOne(raw: SeriesMap, k: SeriesKey, before: int,
                     ghost cuts: Bounds, ghost views: RawWindow, ghost sizes: Bounds, ghost jsonOf: string -> string)
    requires AllHold(raw, cuts, views, sizes, jsonOf) && k in raw && cuts[k] <= before
    modifies raw[k], raw[k].compressed
    ensures AllHold(raw, cuts[k := before], views, sizes, jsonOf)
  {
    hide Holds, Separate;
    ApartFrom(raw, k);
    CompressSeries(raw[k], before, cuts[k], views[k], sizes[k], jsonOf);
  }

  method PruneOne(raw: SeriesMap, k: SeriesKey, before: int,
                  ghost cuts: Bounds, ghost views: RawWindow, ghost sizes: Bounds, ghost jsonOf: string -> string)
      returns (deleted: int, empty: bool)
    requires AllHold(raw, cuts, views, sizes, jsonOf) && k in raw
    modifies raw[k], raw[k].compressed
    ensures AllHold(raw, cuts, views[k := From(views[k], before)], sizes, jsonOf)
    ensures deleted == |views[k]| - |From(views[k], before)|
    ensures empty <==> From(views[k], before) == []
  {
    hide Holds, From, Separate;
    ApartFrom(raw, k);
    deleted, empty := PruneSeries(raw[k], before, cuts[k], views[k], sizes[k], jsonOf);
  }

  method WriteOne(raw: SeriesMap, k: SeriesKey, p: Point,
                  ghost cuts: Bounds, ghost views: RawWindow, ghost sizes: Bounds, ghost jsonOf: string -> string,
                  directCutoff: int)
      returns (marks: set<string>, dirty: bool)
    requires AllHold(raw, cuts, views, sizes, jsonOf) && k in raw && cuts[k] == directCutoff
    requires sizes[k] < TWO_32 && p.labelsJSON == jsonOf(p.labelsHash)
    modifies raw[k], raw[k].compressed
    ensures AllHold(raw, cuts, views[k := Upsert(views[k], EntryOf(p))], sizes[k := sizes[k] + 1], jsonOf)
    ensures marks == Marks(views[k], EntryOf(p), directCutoff)
  {
    hide Holds, Upsert, Marks, Separate;
    ApartFrom(raw, k);
    marks, dirty := WriteSeries(raw[k], p, directCutoff, views[k], sizes[k], jsonOf);
  }

  method CompactOne(raw: SeriesMap, k: SeriesKey,
                    ghost cuts: Bounds, ghost views: RawWindow, ghost sizes: Bounds, ghost jsonOf: string -> string)
    requires AllHold(raw, cuts, views, sizes, jsonOf) && k in raw
    modifies raw[k], raw[k].compressed
    ensures AllHold(raw, cuts, views, sizes, jsonOf)
  {
    hide Holds, Separate;
    ApartFrom(raw, k);
    CompactSeries(raw[k], cuts[k], views[k], sizes[k], jsonOf);
  }

  function Only<V>(m: map<SeriesKey, V>, keys: set<SeriesKey>): map<SeriesKey, V> {
    map k | k in m && k in keys :: m[k]
  }

  lemma AllHoldPart(raw: SeriesMap, cuts: Bounds, views: RawWindow, sizes: Bounds, jsonOf: string -> string, keys: set<SeriesKey>)
    requires AllHold(raw, cuts, views, sizes, jsonOf)
    ensures AllHold(Only(raw, keys), Only(cuts, keys), Only(views, keys), Only(sizes, keys), jsonOf)
  {
    hide Holds;
  }

  lemma OnlySame(all: set<SeriesKey>, keys: set<SeriesKey>, cutoff: int)
    requires keys <= all
    ensures Only(Same(all, cutoff), keys) == Same(keys, cutoff)
  {
  }

  lemma OnlyKeys<V>(m: map<SeriesKey, V>, keys: set<SeriesKey>)
    requires keys <= m.Keys
    ensures Only(m, keys).Keys == keys && forall k :: k in keys ==> Only(m, keys)[k] == m[k]
  {
  }

  /** `after` is `before` pruned series by series, and `keys` are the ones with samples left. */
  ghost predicate Pruned(before: RawWindow, after: RawWindow, keys: set<SeriesKey>, cutoff: int) {
    && before.Keys == after.Keys && keys <= before.Keys
    && (forall k :: k in before ==> after[k] == From(before[k], cutoff))
    && (forall k :: k in before ==> (k in keys <==> From(before[k], cutoff) != []))
  }

  lemma OnlyTrimmed(before: RawWindow, after: RawWindow, keys: set<SeriesKey>, cutoff: int)
    requires Pruned(before, after, keys, cutoff)
    ensures keys <= before.Keys
    ensures Only(after, keys) == Trim(before, cutoff)
  {
    hide From;
  }

  lemma EmptyView(series: RawSeries)
    requires series.Valid()
    ensures series.compressed.count == 0 && |series.samples| == 0 <==> series.View() == []
  {
  }

  function Same(keys: set<SeriesKey>, v: int): Bounds {
    map k | k in keys :: v
  }

  lemma SameAt(keys: set<SeriesKey>, v: int)
    ensures Same(keys, v).Keys == keys && forall k :: k in keys ==> Same(keys, v)[k] == v
  {
  }

  lemma SameWhen(bounds: Bounds, v: int)
    requires forall k :: k in bounds ==> bounds[k] == v
    ensures bounds == Same(bounds.Keys, v)
  {
  }

  lemma SameAdd(keys: set<SeriesKey>, k: SeriesKey, v: int)
    ensures Same(keys + {k}, v) == Same(keys, v)[k := v]
  {
  }

  lemma FootprintAdd(raw: SeriesMap, k: SeriesKey, series: RawSeries)
    requires k !in raw
    ensures Footprint(raw[k := series]) == Footprint(raw) + {series, series.compressed}
  {
    var more := raw[k := series];
    assert forall j :: j in raw ==> more[j] == raw[j];
    assert more[k] == series;
  }

  class RawTable {
    var raw: SeriesMap
    ghost const jsonOf: string -> string
    // For the proof: what each series stands for, where it is split, and how many labels it holds.
    ghost var views: RawWindow
    ghost var cutoff: int
    ghost var sizes: Bounds

    ghost predicate Valid()
      reads this, Footprint(raw)
    {
      AllHold(raw, Same(raw.Keys, cutoff), views, sizes, jsonOf)
    }

    constructor (ghost jsonOf: string -> string, ghost cutoff: int)
      ensures Valid() && views == map[] && this.jsonOf == jsonOf && this.cutoff == cutoff && raw == map[]
    {
      raw, views, sizes := map[], map[], map[];
      this.jsonOf := jsonOf;
      this.cutoff := cutoff;
    }

    /** Moves everything before the cutoff of every series into its encoded buffer. */
    method CompressBefore(before: int)
      requires Valid() && cutoff <= before
      modifies this`cutoff, Footprint(raw)
      ensures Valid() && cutoff == before
    {
      hide AllHold, Same;
      ghost var cuts := Same(raw.Keys, cutoff);
      SameAt(raw.Keys, cutoff);
      var left := raw.Keys;
      while left != {}
        modifies Footprint(raw)
        invariant left <= raw.Keys == cuts.Keys
        invariant forall k :: k in raw ==> cuts[k] == if k in left then cutoff else before
        invariant AllHold(raw, cuts, views, sizes, jsonOf)
        decreases left
      {
        var k :| k in left;
        CompressOne(raw, k, before, cuts, views, sizes, jsonOf);
        cuts := cuts[k := before];
        left := left - {k};
      }
      SameWhen(cuts, before);
      NotPart(this, raw);
      cutoff := before;
    }

    /** Drops what is before the cutoff everywhere, and every series that becomes empty. */
    method PruneBefore(before: int) returns (deleted: int)
      requires Valid()
      modifies this`raw, this`views, this`sizes, Footprint(raw)
      ensures Valid() && views == Trim(old(views), before)
      ensures raw == Only(old(raw), raw.Keys) && sizes == Only(old(sizes), raw.Keys)
    {
      hide AllHold, From, Only, Trim, Pruned;
      var keep: set<SeriesKey>;
      ghost var now;
      KeysOf(raw, Same(raw.Keys, cutoff), views, sizes, jsonOf);
      deleted, keep, now := PruneEach(before);
      OnlyTrimmed(views, now, keep, before);
      Forget(keep, now);
    }

    /** Removes every series but the kept ones from the table. */
    method Forget(keep: set<SeriesKey>, ghost now: RawWindow)
      requires keep <= raw.Keys && AllHold(raw, Same(raw.Keys, cutoff), now, sizes, jsonOf)
      modifies this`raw, this`views, this`sizes
      ensures Valid() && views == Only(now, keep)
      ensures raw.Keys == keep && raw == Only(old(raw), keep) && sizes == Only(old(sizes), keep)
    {
      hide AllHold, Only;
      AllHoldPart(raw, Same(raw.Keys, cutoff), now, sizes, jsonOf, keep);
      OnlySame(raw.Keys, keep, cutoff);
      OnlyKeys(raw, keep);
      NotPart(this, Only(raw, keep));
      raw, views, sizes := Only(raw, keep), Only(now, keep), Only(sizes, keep);
    }

    method PruneEach(before: int) returns (deleted: int, keep: set<SeriesKey>, ghost now: RawWindow)
      requires Valid() && raw.Keys == views.Keys
      modifies Footprint(raw)
      ensures AllHold(raw, Same(raw.Keys, cutoff), now, sizes, jsonOf)
      ensures Pruned(views, now, keep, before)
    {
      hide AllHold, From;
      ghost var cuts := Same(raw.Keys, cutoff);
      var left := raw.Keys;
      deleted, keep, now := 0, {}, views;
      while left != {}
        invariant left <= raw.Keys == now.Keys && keep <= raw.Keys - left
        invariant forall k :: k in raw ==> now[k] == if k in left then views[k] else From(views[k], before)
        invariant forall k :: k in raw && k !in left ==> (k in keep <==> From(views[k], before) != [])
        invariant AllHold(raw, cuts, now, sizes, jsonOf)
        decreases left
      {
        var k :| k in left;
        var gone, empty := PruneOne(raw, k, before, cuts, now, sizes, jsonOf);
        now := now[k := From(now[k], before)];
        deleted := deleted + gone;
        if !empty {
          keep := keep + {k};
        }
        left := left - {k};
      }
    }
  
    /** Makes sure the series exists; a new one stands for nothing yet. */
    method EnsureSeries(k: SeriesKey, tagsJSON: string)
      requires Valid()
      modifies this`raw, this`views, this`sizes
      ensures Valid() && raw.Keys == old(raw.Keys) + {k}
      ensures views == old(views)[k := SeriesOf(old(views), k)]
      ensures sizes == old(sizes)[k := if k in old(sizes) then old(sizes)[k] else 0]
      ensures fresh(Footprint(raw) - old(Footprint(raw)))
    {
      hide AllHold, Footprint;
      KeysOf(raw, Same(raw.Keys, cutoff), views, sizes, jsonOf);
      if k !in raw {
        AddSeries(k, tagsJSON);
      } else {
        assert views == views[k := views[k]] && sizes == sizes[k := sizes[k]];
      }
    }

    method AddSeries(k: SeriesKey, tagsJSON: string)
      requires Valid() && k !in raw
      modifies this`raw, this`views, this`sizes
      ensures Valid() && raw.Keys == old(raw.Keys) + {k}
      ensures views == old(views)[k := []] && sizes == old(sizes)[k := 0]
      ensures fresh(Footprint(raw) - old(Footprint(raw)))
    {
      hide AllHold, Holds, Same, Footprint;
      assert allocated(Footprint(raw));
      var series := NewSeries(tagsJSON, cutoff, jsonOf);
      FootprintAdd(raw, k, series);
      Register(k, series);
    }

    /** Enters a series that is no part of the table yet. */
    method Register(k: SeriesKey, series: RawSeries)
      requires Valid() && k !in raw && Holds(series, cutoff, [], 0, jsonOf)
      requires series !in Footprint(raw) && series.compressed !in Footprint(raw)
      modifies this`raw, this`views, this`sizes
      ensures Valid() && raw.Keys == old(raw.Keys) + {k} && raw == old(raw)[k := series]
      ensures views == old(views)[k := []] && sizes == old(sizes)[k := 0]
    {
      hide AllHold, Holds, Same;
      AllHoldAdd(raw, Same(raw.Keys, cutoff), views, sizes, jsonOf, k, series, cutoff);
      SameAdd(raw.Keys, k, cutoff);
      KeysAdd(raw, k, series);
      NotPart(this, raw[k := series]);
      raw, views, sizes := raw[k := series], views[k := []], sizes[k := 0];
    }

    /** The raw half of writing one point, with the minutes it marks for a rebuild. */
    method WritePoint(p: Point, directCutoff: int, rawCutoff: int) returns (marked: set<HotKey>, dirty: bool)
      requires Valid() && p.labelsJSON == jsonOf(p.labelsHash) && cutoff == directCutoff
      requires p.series in sizes ==> sizes[p.series] < TWO_32
      modifies this`raw, this`views, this`sizes, Footprint(raw)
      ensures Valid() && views == PutRaw(old(views), p, rawCutoff)
      ensures marked == MarkedKeys(old(views), p, rawCutoff, directCutoff)
      ensures dirty ==> p.series in raw
      ensures fresh(Footprint(raw) - old(Footprint(raw)))
      ensures raw.Keys >= old(raw.Keys)
      ensures sizes == old(sizes) || sizes == old(sizes)[p.series := 1 + if p.series in old(sizes) then old(sizes)[p.series] else 0]
    {
      hide AllHold, Upsert, Marks, Footprint;
      if p.timestamp < rawCutoff {
        return {}, false;
      }
      EnsureSeries(p.series, p.tagsJSON);
      NotPart(this, raw);
      marked, dirty := WriteInto(p, directCutoff);
    }

    method WriteInto(p: Point, directCutoff: int) returns (marked: set<HotKey>, dirty: bool)
      requires Valid() && p.labelsJSON == jsonOf(p.labelsHash) && cutoff == directCutoff
      requires p.series in raw && p.series in sizes && p.series in views && sizes[p.series] < TWO_32
      modifies this`views, this`sizes, Footprint(raw)
      ensures Valid() && views == old(views)[p.series := Upsert(old(views[p.series]), EntryOf(p))]
      ensures sizes == old(sizes)[p.series := old(sizes[p.series]) + 1]
      ensures marked == set h | h in Marks(old(views[p.series]), EntryOf(p), directCutoff) ::
                          HotKey(p.series, h, BucketStart(p.timestamp, MINUTE))
    {
      hide AllHold, Upsert, Marks, BucketStart;
      var marks;
      marks, dirty := WriteOne(raw, p.series, p, Same(raw.Keys, cutoff), views, sizes, jsonOf, directCutoff);
      NotPart(this, raw);
      views := views[p.series := Upsert(views[p.series], EntryOf(p))];
      sizes := sizes[p.series := sizes[p.series] + 1];
      marked := set h | h in marks :: HotKey(p.series, h, BucketStart(p.timestamp, MINUTE));
    }
  
    /** Room in every label table for each point of a batch to bring a label set of its own. */
    ghost predicate HasRoom(n: int)
      reads this, Footprint(raw)
    {
      0 <= n <= TWO_32 && forall k :: k in raw ==> |raw[k].labelHashes| + n <= TWO_32
    }

    ghost predicate RoomLeft(n: int)
      reads this
    {
      0 <= n <= TWO_32 && forall k :: k in sizes ==> sizes[k] + n <= TWO_32
    }

    /** Takes the present sizes of the label tables as their bounds. */
    ghost method MeasureLabels(n: int)
      requires Valid() && HasRoom(n)
      modifies this`sizes
      ensures Valid() && RoomLeft(n)
    {
      hide AllHold;
      ghost var measured := map k | k in raw :: |raw[k].labelHashes|;
      AllHoldMeasured(raw, Same(raw.Keys, cutoff), views, sizes, jsonOf, measured);
      NotPart(this, raw);
      sizes := measured;
    }

    /** Writes the points in order and collects every minute they mark. */
    method WriteAll(points: seq<Point>, directCutoff: int, rawCutoff: int)
        returns (rebuild: set<HotKey>, dirty: set<SeriesKey>)
      requires Valid() && cutoff == directCutoff && RoomLeft(|points|)
      requires forall i :: 0 <= i < |points| ==> points[i].labelsJSON == jsonOf(points[i].labelsHash)
      modifies this`raw, this`views, this`sizes, Footprint(raw)
      ensures Valid() && views == PutAll(old(views), points, rawCutoff)
      ensures rebuild == RebuildKeys(old(views), points, rawCutoff, directCutoff)
      ensures dirty <= raw.Keys
      ensures fresh(Footprint(raw) - old(Footprint(raw)))
    {
      hide AllHold, PutRaw, MarkedKeys;
      rebuild, dirty := {}, {};
      var i := 0;
      while i < |points|
        invariant 0 <= i <= |points|
        invariant Valid() && RoomLeft(|points| - i)
        invariant views == PutAll(old(views), points[..i], rawCutoff)
        invariant rebuild == RebuildKeys(old(views), points[..i], rawCutoff, directCutoff)
        invariant dirty <= raw.Keys
        invariant fresh(Footprint(raw) - old(Footprint(raw)))
      {
        assert points[..i + 1][..i] == points[..i];
        var marked, relabelled := WritePoint(points[i], directCutoff, rawCutoff);
        rebuild := rebuild + marked;
        if relabelled {
          dirty := dirty + {points[i].series};
        }
        i := i + 1;
      }
      assert points[..i] == points;
    }

    /** Compacts the label tables of series where a replacement changed a label set. */
    method CompactDirty(dirty: set<SeriesKey>)
      requires Valid() && dirty <= raw.Keys
      modifies Footprint(raw)
      ensures Valid()
    {
      hide AllHold;
      var left := dirty;
      while left != {}
        invariant left <= raw.Keys
        invariant AllHold(raw, Same(raw.Keys, cutoff), views, sizes, jsonOf)
        decreases left
      {
        var k :| k in left;
        CompactOne(raw, k, Same(raw.Keys, cutoff), views, sizes, jsonOf);
        left := left - {k};
      }
    }

    /** Moves the window to `now`: older samples are encoded, expired ones dropped. */
    method TrimWindow(now: int) returns (deleted: int)
      requires Valid() && cutoff <= DirectCutoff(now)
      modifies this`raw, this`views, this`sizes, this`cutoff, Footprint(raw)
      ensures Valid() && cutoff == DirectCutoff(now)
      ensures views == Trim(old(views), RawCutoff(now))
      ensures raw == Only(old(raw), raw.Keys) && sizes == Only(old(sizes), raw.Keys)
    {
      hide AllHold, Only, Trim;
      CompressBefore(DirectCutoff(now));
      deleted := PruneBefore(RawCutoff(now));
    }

    /** The raw half of one batch: trim, write, and compact what changed label sets. */
    method WriteRawPointsAt(points: seq<Point>, now: int) returns (rebuild: set<HotKey>)
      requires Valid() && cutoff <= DirectCutoff(now) && HasRoom(|points|)
      requires forall i :: 0 <= i < |points| ==> points[i].labelsJSON == jsonOf(points[i].labelsHash)
      modifies this`raw, this`views, this`sizes, this`cutoff, Footprint(raw)
      ensures Valid() && cutoff == DirectCutoff(now)
      ensures views == PutAll(Trim(old(views), RawCutoff(now)), points, RawCutoff(now))
      ensures rebuild == RebuildKeys(Trim(old(views), RawCutoff(now)), points, RawCutoff(now), DirectCutoff(now))
    {
      hide AllHold, Trim, PutAll, RebuildKeys;
      MeasureLabels(|points|);
      NotPart(this, raw);
      var _ := TrimWindow(now);
      OnlyFootprint(old(raw), raw.Keys);
      var dirty;
      rebuild, dirty := WriteAll(points, DirectCutoff(now), RawCutoff(now));
      CompactDirty(dirty);
    }
  
    /** The samples of one series in the closed range [start, end]. */
    method SeriesRange(k: SeriesKey, start: int, end: int) returns (points: seq<Entry>)
      requires Valid()
      ensures points == Before(From(SeriesOf(views, k), start), end + 1)
    {
      hide From, Before;
      if k in raw {
        assert Holds(raw[k], cutoff, views[k], sizes[k], jsonOf);
        points := raw[k].Range(start, end);
      } else {
        NothingInRange<LabelSet>([], start, end);
        points := [];
      }
    }

    /** Rebuilds one minute bucket from the samples of its series, minute and label set. */
    method BuildMinute(k: HotKey) returns (bucket: Summary)
      requires Valid() && k.bucket % MINUTE == 0
      ensures bucket == MinuteSummary(views, k)
    {
      hide AllHold, Fold, AddPoint, Observe, InKey;
      var points := SeriesRange(k.series, k.bucket, k.bucket + MINUTE - 1);
      bucket := EMPTY;
      FoldEmpty();
      var i := 0;
      while i < |points|
        invariant 0 <= i <= |points|
        invariant bucket == Summarize(points[..i], HasHash(k.labelsHash))
      {
        assert points[..i + 1][..i] == points[..i];
        SummarizeGrow(points[..i + 1], HasHash(k.labelsHash));
        if points[i].labels.hash == k.labelsHash {
          bucket := AddPoint(bucket, Observe(points[i]));
        }
        i := i + 1;
      }
      assert points[..i] == points;
      MinuteOfRange(SeriesOf(views, k.series), k);
    }
  }

  function HasHash(hash: string): Entry -> bool {
    (e: Entry) => e.labels.hash == hash
  }

  /** A minute of one label set, cut out of the series first by time and then by label. */
  lemma {:induction false} MinuteOfRange(v: seq<Entry>, k: HotKey)
    requires k.bucket % MINUTE == 0
    ensures Summarize(Before(From(v, k.bucket), k.bucket + MINUTE), HasHash(k.labelsHash)) == Summarize(v, InKey(k))
  {
    hide From, Before, Pick, Fold, BucketStart;
    forall i | 0 <= i < |v|
      ensures InKey(k)(v[i]) == (k.bucket <= v[i].timestamp < k.bucket + MINUTE && HasHash(k.labelsHash)(v[i]))
    {
      var t: int := v[i].timestamp;
      if k.bucket <= t < k.bucket + MINUTE {
        MultipleUnique(BucketStart(t, MINUTE), k.bucket, MINUTE);
      }
    }
    PickRange(v, k.bucket, k.bucket + MINUTE, HasHash(k.labelsHash), InKey(k));
  }

  lemma OnlyFootprint(raw: SeriesMap, keys: set<SeriesKey>)
    ensures Footprint(Only(raw, keys)) <= Footprint(raw)
  {
  }

  lemma NewSeriesHolds(series: RawSeries, cutoff: int, jsonOf: string -> string)
    requires series.Valid() && series.View() == [] && series.labelHashes == [] && series.jsonOf == jsonOf
    requires forall c :: series.SplitAt(c)
    ensures Holds(series, cutoff, [], 0, jsonOf)
  {
    assert series.SplitAt(cutoff);
  }

  lemma AllHoldAdd(raw: SeriesMap, cuts: Bounds, views: RawWindow, sizes: Bounds, jsonOf: string -> string,
                   k: SeriesKey, series: RawSeries, cutoff: int)
    requires AllHold(raw, cuts, views, sizes, jsonOf) && k !in raw
    requires Holds(series, cutoff, [], 0, jsonOf)
    requires series !in Footprint(raw) && series.compressed !in Footprint(raw)
    ensures AllHold(raw[k := series], cuts[k := cutoff], views[k := []], sizes[k := 0], jsonOf)
  {
    hide Holds;
    forall j | j in raw ensures Apart(raw[j], series) {
      assert raw[j] as object in Footprint(raw) && raw[j].compressed as object in Footprint(raw);
    }
  }

  lemma KeysAdd(raw: SeriesMap, k: SeriesKey, series: RawSeries)
    ensures raw[k := series].Keys == raw.Keys + {k}
  {
  }

  lemma NotPart(table: RawTable, raw: SeriesMap)
    ensures table !in Footprint(raw)
  {
  }

  lemma HoldsMeasured(series: RawSeries, cutoff: int, view: seq<Entry>, labels: int, jsonOf: string -> string)
    requires Holds(series, cutoff, view, labels, jsonOf)
    ensures Holds(series, cutoff, view, |series.labelHashes|, jsonOf)
  {
  }

  lemma AllHoldMeasured(raw: SeriesMap, cuts: Bounds, views: RawWindow, sizes: Bounds, jsonOf: string -> string, measured: Bounds)
    requires AllHold(raw, cuts, views, sizes, jsonOf) && measured == map k | k in raw :: |raw[k].labelHashes|
    ensures AllHold(raw, cuts, views, measured, jsonOf)
  {
    hide Holds, Separate;
    forall k | k in raw ensures Holds(raw[k], cuts[k], views[k], measured[k], jsonOf) {
      HoldsMeasured(raw[k], cuts[k], views[k], sizes[k], jsonOf);
    }
  }

  lemma KeysOf(raw: SeriesMap, cuts: Bounds, views: RawWindow, sizes: Bounds, jsonOf: string -> string)
    requires AllHold(raw, cuts, views, sizes, jsonOf)
    ensures raw.Keys == cuts.Keys == views.Keys == sizes.Keys
  {
  }
}
