/** A bucket accumulator with its digest: the sketch always stands for the samples the
    summary counts. */
module RollupBucket {
  import opened Wrappers
  import opened Rollup
  import opened Centroids
  import opened QuantileValues
  import opened TDigest

  /** A row that should have a sketch has none. */
  datatype MissingDigest = MissingDigest(count: int)

  /** The digest has the weight, the sum and the extremes of the summary. */
  ghost predicate Matches(d: TDigest, b: Summary)
    reads d, d.cells
  {
    && d.Valid()
    && d.count == b.count as real && Moment(d.seen) == b.sum
    && (b.count == 0 <==> d.seen == [])
    && (b.count > 0 ==> d.min == At(b.min) && d.max == At(b.max))
  }

  class RollupBucket {
    var count: int
    var sum: real
    var sumSq: real
    var min: real
    var max: real
    var firstVal: real
    var firstTS: int
    var lastVal: real
    var lastTS: int
    var digest: TDigest?

    ghost function Stats(): Summary
      reads this
    {
      Summary(count, sum, sumSq, min, max, firstVal, firstTS, lastVal, lastTS)
    }

    ghost function Parts(): set<object>
      reads this, digest
    {
      if digest == null then {this}
      else
        var d: TDigest := digest;
        {this, d, d.cells}
    }

    /** The summary is sound, and the digest, if there is one, is a sound digest of its own. */
    ghost predicate Sound()
      reads this, digest, if digest == null then {} else {digest.cells}
    {
      WellFormed(Stats()) && (digest != null ==> digest.Valid())
    }

    ghost predicate Valid()
      reads this, digest, if digest == null then {} else {digest.cells}
    {
      WellFormed(Stats()) && (digest != null ==> Matches(digest, Stats()))
    }

    constructor (compression: real, includeDigest: bool)
      ensures Valid() && Stats() == EMPTY && (digest != null <==> includeDigest)
      ensures fresh(Parts())
    {
      count, sum, sumSq, min, max := 0, 0.0, 0.0, 0.0, 0.0;
      firstVal, firstTS, lastVal, lastTS := 0.0, 0, 0.0, 0;
      if includeDigest {
        var d := new TDigest(compression);
        MatchesNothing(d);
        digest := d;
      } else {
        digest := null;
      }
    }

    /** Folds a raw observation in, into the summary and the digest alike. */
    method AddPoint(value: real, ts: int)
      requires Valid()
      modifies Parts()
      ensures Valid() && Stats() == Rollup.AddPoint(old(Stats()), Obs(ts, value))
      ensures digest == old(digest) && fresh(Parts() - old(Parts()))
    {
      hide Matches, Summarises;
      ghost var before := Stats();
      if count == 0 {
        min, max := value, value;
        firstVal, firstTS := value, ts;
        lastVal, lastTS := value, ts;
      } else {
        if value < min { min := value; }
        if value > max { max := value; }
        if ts < firstTS { firstVal, firstTS := value, ts; }
        if ts > lastTS { lastVal, lastTS := value, ts; }
      }
      count := count + 1;
      sum := sum + value;
      sumSq := sumSq + value * value;
      assert Stats() == Rollup.AddPoint(before, Obs(ts, value));
      if digest != null {
        AddToDigest(digest, before, Obs(ts, value));
      }
    }

    /** Folds a stored bucket in. The digest still matches the summary exactly when neither
        side brought samples without a sketch to a bucket that keeps one. */
    method MergeStored(o: RollupBucket)
      requires Valid() && o.Valid() && o.Parts() !! Parts()
      modifies Parts()
      ensures Sound() && Stats() == Merge(old(Stats()), old(o.Stats()))
      ensures fresh(Parts() - old(Parts())) && (old(digest) != null ==> digest == old(digest))
      ensures Valid() <==>
              || old(o.count) == 0
              || (old(digest) != null && old(o.digest) != null)
              || (old(o.digest) == null && old(digest) == null)
              || (old(digest) == null && old(count) == 0)
    {
      hide Matches, Summarises;
      if digest != null {
        MatchesValid(digest, Stats());
      }
      if o.count == 0 {
        return;
      }
      ghost var a, b := Stats(), o.Stats();
      MergeWellFormed(a, b);
      MergeStats(o);
      if o.digest != null {
        if digest == null {
          var d := new TDigest(DEFAULT_COMPRESSION);
          MergeIntoFresh(d, o.digest, a, b);
          digest := d;
        } else {
          MergeDigests(digest, o.digest, a, b);
        }
      } else if digest != null {
        KeptAlone(digest, a, b);
      }
    }

    method MergeStats(o: RollupBucket)
      requires o != this && o.count != 0
      modifies this`count, this`sum, this`sumSq, this`min, this`max, this`firstVal, this`firstTS, this`lastVal, this`lastTS
      ensures Stats() == Merge(old(Stats()), o.Stats())
    {
      if count == 0 {
        min, max := o.min, o.max;
        firstVal, firstTS := o.firstVal, o.firstTS;
        lastVal, lastTS := o.lastVal, o.lastTS;
      } else {
        if o.min < min { min := o.min; }
        if o.max > max { max := o.max; }
        if o.firstTS < firstTS { firstVal, firstTS := o.firstVal, o.firstTS; }
        if o.lastTS > lastTS { lastVal, lastTS := o.lastVal, o.lastTS; }
      }
      count := count + o.count;
      sum := sum + o.sum;
      sumSq := sumSq + o.sumSq;
    }

    /** Folds rows in one after the other. Rows that carry a sketch, as every row that was read
        or accumulated does, keep the sketch in step with the summary. */
    method MergeRows(rows: seq<RollupBucket>)
      requires Valid() && Stats() == EMPTY && digest != null
      requires forall i :: 0 <= i < |rows| ==> rows[i].Valid() && rows[i].digest != null && rows[i].Parts() !! Parts()
      modifies Parts()
      ensures Valid() && digest == old(digest) && fresh(Parts() - old(Parts()))
      ensures Stats() == MergeAll(old(StatsOfRows(rows)))
    {
      hide Matches, Merge, WellFormed, RollupBucket.Valid, RollupBucket.Sound;
      ghost var was := Parts();
      var i := 0;
      while i < |rows|
        invariant 0 <= i <= |rows|
        invariant Valid() && digest == old(digest) && fresh(Parts() - was)
        invariant Stats() == MergeAll(old(StatsOfRows(rows[..i])))
        invariant forall j :: 0 <= j < |rows| ==>
                    rows[j].Valid() && rows[j].digest != null && rows[j].Parts() !! Parts() && rows[j].Stats() == old(rows[j].Stats())
      {
        assert rows[..i + 1][..i] == rows[..i];
        MergeAllPush(old(StatsOfRows(rows[..i])), rows[i].Stats());
        MergeStored(rows[i]);
        i := i + 1;
      }
      assert rows[..i] == rows;
    }

    /** A percentile of the bucket lies between its extremes. */
    method Percentile(q: real) returns (v: real)
      requires Valid()
      modifies if digest == null then {} else {digest, digest.cells}
      ensures Valid() && Stats() == old(Stats()) && digest == old(digest)
      ensures digest != null ==> digest.cells == old(digest.cells)
      ensures digest == null || count == 0 ==> v == 0.0
      ensures digest != null && count > 0 ==>
                var d: TDigest := digest;
                && min <= v <= max && Ready(d.View(), d.count, min, max) && v == QuantileOf(d.View(), d.count, min, max, q)
                && OnBrokenLine(d.View(), d.count, min, max, q, v)
                && d.processed && (old(d.processed) ==> d.View() == old(d.View()))
    {
      hide Summarises, Moment, Ready, QuantileOf, OnBrokenLine;
      if digest == null || digest.count == 0.0 {
        return 0.0;
      }
      var r := digest.Quantile(q);
      return r.value;
    }

    /** The percentiles of the summary statistics, in order. */
    method Percentiles() returns (p50: real, p95: real, p99: real)
      requires Valid() && digest != null
      modifies digest, digest.cells
      ensures Valid() && Stats() == old(Stats()) && digest == old(digest)
      ensures count == 0 ==> p50 == p95 == p99 == 0.0
      ensures count > 0 ==> min <= p50 <= p95 <= p99 <= max
      ensures count > 0 ==>
                var d: TDigest := digest;
                && d.count == count as real
                && OnBrokenLine(d.View(), d.count, min, max, 0.5, p50) && OnBrokenLine(d.View(), d.count, min, max, 0.95, p95)
                && OnBrokenLine(d.View(), d.count, min, max, 0.99, p99)
    {
      hide Summarises, Moment, Ready, QuantileOf, Weight, OnBrokenLine;
      p50 := Percentile(0.5);
      p95 := Percentile(0.95);
      p99 := Percentile(0.99);
      if count > 0 {
        ghost var d: TDigest := digest;
        QuantileMonotone(d.View(), d.count, min, max, 0.5, 0.95);
        QuantileMonotone(d.View(), d.count, min, max, 0.95, 0.99);
      }
    }

    /** Whether the sketch is written at all: constant buckets go without. */
    predicate StoresDigest()
      reads this
    {
      count != 0 && min != max && digest != null
    }
  }

  ghost function StatsOfRows(rows: seq<RollupBucket>): seq<Summary>
    reads rows
  {
    if rows == [] then [] else StatsOfRows(rows[..|rows| - 1]) + [rows[|rows| - 1].Stats()]
  }

  lemma MergeAllPush(rows: seq<Summary>, b: Summary)
    ensures MergeAll(rows + [b]) == Merge(MergeAll(rows), b)
  {
    assert (rows + [b])[..|rows|] == rows;
  }

  /** The summary statistics of a range of rows: one bucket merged from them all, and its
      percentiles in order. */
  method SummaryStatistics(rows: seq<RollupBucket>, compression: real) returns (total: RollupBucket, p50: real, p95: real, p99: real)
    requires forall i :: 0 <= i < |rows| ==> rows[i].Valid() && rows[i].digest != null
    ensures total.Valid() && total.Stats() == MergeAll(StatsOfRows(rows))
    ensures total.count > 0 ==> total.min <= p50 <= p95 <= p99 <= total.max
    ensures total.digest != null
    ensures total.count > 0 ==>
              var d: TDigest := total.digest;
              && d.count == total.count as real
              && OnBrokenLine(d.View(), d.count, total.min, total.max, 0.5, p50)
              && OnBrokenLine(d.View(), d.count, total.min, total.max, 0.95, p95)
              && OnBrokenLine(d.View(), d.count, total.min, total.max, 0.99, p99)
  {
    hide Matches, Merge, WellFormed, OnBrokenLine, RollupBucket.Valid;
    total := new RollupBucket(compression, true);
    total.MergeRows(rows);
    p50, p95, p99 := total.Percentiles();
  }

  // ---- digests and summaries --------------------------------------------------------------------

  lemma MatchesNothing(d: TDigest)
    requires d.Valid() && d.seen == [] && d.count == 0.0
    ensures Matches(d, EMPTY)
  {
  }

  lemma MatchesValid(d: TDigest, b: Summary)
    requires Matches(d, b)
    ensures d.Valid()
  {
  }

  lemma MomentPush(s: seq<Centroid>, c: Centroid)
    ensures Moment(s + [c]) == Moment(s) + Mass(c)
  {
    assert (s + [c])[..|s|] == s;
  }

  method AddToDigest(d: TDigest, ghost b: Summary, p: Obs)
    requires Matches(d, b) && WellFormed(b)
    modifies d, d.cells
    ensures Matches(d, Rollup.AddPoint(b, p)) && (d.cells == old(d.cells) || fresh(d.cells))
  {
    hide Summarises, Moment, Weight;
    ghost var c := Centroid(p.val, 1.0);
    MomentPush(d.seen, c);
    ghost var seen, lo, hi := d.seen, d.min, d.max;
    SeenExtremes(d);
    d.Add(p.val, 1.0);
    SeenExtremes(d);
    OneMore(seen, lo, hi, c, d.min, d.max);
  }

  lemma SeenExtremes(d: TDigest)
    requires d.Valid()
    ensures Extremes(d.seen, d.min, d.max)
  {
  }

  /** The extremes of a history are determined by it. */
  lemma ExtremesUnique(s: seq<Centroid>, lo: Limit, hi: Limit, lo2: Limit, hi2: Limit)
    requires Extremes(s, lo, hi) && Extremes(s, lo2, hi2)
    ensures lo == lo2 && hi == hi2
  {
    if s != [] {
      var i :| 0 <= i < |s| && s[i].mean == lo.value;
      var j :| 0 <= j < |s| && s[j].mean == lo2.value;
      var k :| 0 <= k < |s| && s[k].mean == hi.value;
      var l :| 0 <= l < |s| && s[l].mean == hi2.value;
    }
  }

  lemma OneMore(s: seq<Centroid>, lo: Limit, hi: Limit, c: Centroid, lo2: Limit, hi2: Limit)
    requires Extremes(s, lo, hi) && Extremes(s + [c], lo2, hi2)
    ensures lo2 == Lower(lo, At(c.mean)) && hi2 == Higher(hi, At(c.mean))
    ensures s + [c] != []
  {
    assert [c][0] == c;
    ExtremesJoin(s, lo, hi, [c], At(c.mean), At(c.mean));
    ExtremesUnique(s + [c], Lower(lo, At(c.mean)), Higher(hi, At(c.mean)), lo2, hi2);
  }

  lemma JoinedExtremes(a: seq<Centroid>, alo: Limit, ahi: Limit, b: seq<Centroid>, blo: Limit, bhi: Limit, lo: Limit, hi: Limit)
    requires Extremes(a, alo, ahi) && Extremes(b, blo, bhi) && Extremes(a + b, lo, hi)
    ensures lo == Lower(alo, blo) && hi == Higher(ahi, bhi)
  {
    ExtremesJoin(a, alo, ahi, b, blo, bhi);
    ExtremesUnique(a + b, Lower(alo, blo), Higher(ahi, bhi), lo, hi);
  }

  method MergeDigests(d: TDigest, o: TDigest, ghost a: Summary, ghost b: Summary)
    requires Matches(d, a) && Matches(o, b) && WellFormed(a) && WellFormed(b) && d != o && d.cells != o.cells
    modifies d, d.cells
    ensures Matches(d, Merge(a, b)) && d.Valid() && (d.cells == old(d.cells) || fresh(d.cells))
  {
    hide Summarises, Moment, Weight, Extremes;
    TotalsConcat(d.seen, o.seen);
    SeenExtremes(d);
    SeenExtremes(o);
    ghost var seen, lo, hi := d.seen, d.min, d.max;
    LimitsSet(d.seen, d.min, d.max);
    LimitsSet(o.seen, o.min, o.max);
    d.Merge(o);
    SeenExtremes(d);
    JoinedExtremes(seen, lo, hi, o.seen, o.min, o.max, d.min, d.max);
  }

  /** A bucket without a sketch takes the other's; it matches when the bucket was empty. */
  method MergeIntoFresh(d: TDigest, o: TDigest, ghost a: Summary, ghost b: Summary)
    requires d.Valid() && d.seen == [] && d.count == 0.0 && Matches(o, b) && d != o && d.cells != o.cells
    requires WellFormed(a) && WellFormed(b) && b.count > 0
    modifies d, d.cells
    ensures d.Valid() && (d.cells == old(d.cells) || fresh(d.cells))
    ensures Matches(d, Merge(a, b)) <==> a.count == 0
  {
    MatchesNothing(d);
    MergeDigests(d, o, EMPTY, b);
    MergeUnit(b);
  }

  /** A sketch that misses the samples of a merged bucket no longer matches. */
  lemma KeptAlone(d: TDigest, a: Summary, b: Summary)
    requires Matches(d, a) && b.count > 0
    ensures !Matches(d, Merge(a, b)) && d.Valid()
  {
  }

  // ---- omitted sketches ------------------------------------------------------------------------------

  /** In a constant bucket every sample equals the minimum. */
  lemma {:induction false} ConstantSum(s: seq<Obs>)
    requires s != [] && Fold(s).min == Fold(s).max
    ensures Fold(s).sum == Fold(s).count as real * Fold(s).min
  {
    var init := s[..|s| - 1];
    if init != [] {
      ConstantSum(init);
      Distribute(Fold(init).count, Fold(s).min);
    }
  }

  lemma Distribute(n: int, v: real)
    ensures (n + 1) as real * v == n as real * v + v
  {
  }

  /** Rebuilds the sketch that was left out of a row without a stored one. */
  method DigestFromRollup(b: Summary, compression: real) returns (r: Result<TDigest, MissingDigest>)
    requires b.count >= 0
    ensures r.Ok? <==> b.count == 0 || b.min == b.max
    ensures r.Ok? ==> fresh(r.value) && fresh(r.value.cells) && r.value.Valid()
    ensures r.Ok? && b.count == 0 ==> r.value.seen == []
    ensures r.Ok? && b.count > 0 ==>
              r.value.count == b.count as real && r.value.min == At(b.min) && r.value.max == At(b.max)
              && Moment(r.value.seen) == b.count as real * b.min
  {
    hide Summarises, Moment, Weight;
    var digest := new TDigest(compression);
    if b.count == 0 {
      return Ok(digest);
    } else if b.min == b.max {
      ghost var c := Centroid(b.min, b.count as real);
      digest.Add(b.min, b.count as real);
      assert digest.seen == [c];
      SeenExtremes(digest);
      assert [c][0] == c;
      ExtremesUnique([c], At(b.min), At(b.min), digest.min, digest.max);
      TotalsOne(c);
      return Ok(digest);
    } else {
      return Err(MissingDigest(b.count));
    }
  }

  /** The sketch is left out of a row exactly when it can be rebuilt from the row, or there is none. */
  lemma OmittedIffRebuildable(b: RollupBucket)
    ensures !b.StoresDigest() <==> b.digest == null || b.count == 0 || b.min == b.max
  {
  }

  /** A bucket of real samples that goes without a stored sketch gets one back that matches it
      as its own did. */
  lemma OmittedSketchRebuilt(b: RollupBucket, s: seq<Obs>, d: TDigest)
    requires b.Valid() && b.digest != null && !b.StoresDigest() && s != [] && b.Stats() == Fold(s)
    requires d.Valid() && d.count == b.count as real && d.min == At(b.min) && d.max == At(b.max)
    requires Moment(d.seen) == b.count as real * b.min
    ensures Matches(d, b.Stats())
  {
    ConstantSum(s);
    SeenNothing(d.View(), d.seen, d.min, d.max);
  }
}
