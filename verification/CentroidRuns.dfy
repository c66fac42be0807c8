/** What one condensing pass does to a sorted list: it cuts it into consecutive runs, each as long
    as the size limit allows, and replaces every run by its weighted mean. */
module CentroidRuns {
  import opened Centroids

  /** A cluster of weight `w` behind `before` others, seen from the quantile of its centre, is within
      the size limit 4 * total * q * (1 - q) / compression, or weighs no more than one sample. */
  ghost predicate WithinLimit(w: real, before: real, total: real, compression: real)
    requires total != 0.0
  {
    var q := (before + w / 2.0) / total;
    w * compression <= 4.0 * total * q * (1.0 - q) || w <= 1.0
  }

  /** Cluster `k` of the result stands for the run from `cuts[k]` up to `cuts[k + 1]`. A run of several
      clusters is within the limit, and with the first cluster of the next run it would not be. */
  ghost predicate IsRun(r: seq<Centroid>, s: seq<Centroid>, cuts: seq<int>, k: int, total: real, compression: real)
    requires 0 <= k < |r| && |cuts| == |r| + 1 && total != 0.0
  {
    var lo, hi := cuts[k], cuts[k + 1];
    && 0 <= lo < hi <= |s|
    && r[k].weight == Weight(s[lo..hi]) && r[k].mean * r[k].weight == Moment(s[lo..hi])
    && (hi - lo > 1 ==> WithinLimit(r[k].weight, Weight(s[..lo]), total, compression))
    && (hi < |s| ==> !WithinLimit(r[k].weight + s[hi].weight, Weight(s[..lo]), total, compression))
  }

  /** The result cuts the list from `start` on into runs. */
  ghost predicate CutsFrom(r: seq<Centroid>, s: seq<Centroid>, start: int, cuts: seq<int>, total: real, compression: real)
    requires total != 0.0
  {
    && |cuts| == |r| + 1 && cuts[0] == start && cuts[|r|] == |s|
    && forall k :: 0 <= k < |r| ==> IsRun(r, s, cuts, k, total, compression)
  }

  lemma LimitInQuotients(w: real, limit: real, compression: real)
    requires compression > 0.0
    ensures w <= limit / compression <==> w * compression <= limit
  {
    var x := limit / compression;
    assert x * compression == limit;
    if w <= x {
      assert w * compression <= x * compression;
    } else {
      assert w * compression > x * compression;
    }
  }

  /** The two ways to fit are one: within the limit, or no more than one sample. */
  lemma FitsIffWithinLimit(cur: Centroid, next: Centroid, before: real, total: real, compression: real)
    requires total != 0.0 && compression > 0.0
    ensures Fits(cur, next, before, total, compression)
            <==> WithinLimit(cur.weight + next.weight, before, total, compression)
  {
    var w := cur.weight + next.weight;
    var q := (before + w / 2.0) / total;
    var limit := 4.0 * total * q * (1.0 - q);
    LimitInQuotients(w, limit, compression);
    assert Fits(cur, next, before, total, compression) <==>
           w <= limit / compression || (limit / compression < 1.0 && w <= 1.0);
  }

  lemma WeightPush(s: seq<Centroid>, lo: int, hi: int)
    requires 0 <= lo <= hi < |s|
    ensures Weight(s[lo..hi + 1]) == Weight(s[lo..hi]) + s[hi].weight
    ensures Moment(s[lo..hi + 1]) == Moment(s[lo..hi]) + Mass(s[hi])
  {
    hide Mass;
    assert s[lo..hi + 1][..hi - lo] == s[lo..hi];
    assert s[lo..hi + 1][hi - lo] == s[hi];
  }

  lemma WeightSplit(s: seq<Centroid>, lo: int, hi: int)
    requires 0 <= lo <= hi <= |s|
    ensures Weight(s[..hi]) == Weight(s[..lo]) + Weight(s[lo..hi])
  {
    hide Weight;
    assert s[..hi] == s[..lo] + s[lo..hi];
    TotalsConcat(s[..lo], s[lo..hi]);
  }

  /** The run from `lo` up to `hi` merged so far, sorted before what follows. */
  ghost predicate Gathers(cur: Centroid, s: seq<Centroid>, lo: int, hi: int, total: real, compression: real)
    requires total != 0.0
  {
    && 0 <= lo < hi <= |s| && Positive(s) && Sorted(s) && cur.weight > 0.0
    && cur.weight == Weight(s[lo..hi]) && Mass(cur) == Moment(s[lo..hi])
    && (hi < |s| ==> cur.mean <= s[hi].mean)
    && (hi - lo > 1 ==> WithinLimit(cur.weight, Weight(s[..lo]), total, compression))
  }

  lemma GathersOne(s: seq<Centroid>, lo: int, total: real, compression: real)
    requires 0 <= lo < |s| && Positive(s) && Sorted(s) && total != 0.0
    ensures Gathers(s[lo], s, lo, lo + 1, total, compression)
  {
    hide Weight, Moment, Mass, WithinLimit;
    assert s[lo..lo + 1] == [s[lo]];
    TotalsOne(s[lo]);
  }

  lemma GathersNext(cur: Centroid, s: seq<Centroid>, lo: int, hi: int, total: real, compression: real)
    requires total != 0.0 && hi < |s| && Gathers(cur, s, lo, hi, total, compression)
    requires WithinLimit(cur.weight + s[hi].weight, Weight(s[..lo]), total, compression)
    ensures Gathers(Combine(cur, s[hi]), s, lo, hi + 1, total, compression)
  {
    hide Weight, Moment, Mass, WithinLimit, Combine;
    WeightPush(s, lo, hi);
    CombineWeight(cur, s[hi]);
    CombineExact(cur, s[hi]);
  }

  /** Every pass cuts the list into runs, each as long as the limit allows. */
  lemma {:induction false} CompressedRuns(cur: Centroid, s: seq<Centroid>, lo: int, hi: int, total: real, compression: real)
      returns (cuts: seq<int>)
    requires total != 0.0 && compression > 0.0 && Gathers(cur, s, lo, hi, total, compression)
    ensures cur.weight > 0.0 && Positive(s[hi..])
    ensures CutsFrom(Compressed(cur, Weight(s[..lo]), s[hi..], total, compression), s, lo, cuts, total, compression)
    decreases |s| - hi
  {
    hide Weight, Moment, WithinLimit, Combine, Fits;
    var before := Weight(s[..lo]);
    if hi == |s| {
      cuts := [lo, hi];
      LastRun(cur, s, lo, hi, total, compression);
    } else {
      assert s[hi..][1..] == s[hi + 1..];
      FitsIffWithinLimit(cur, s[hi], before, total, compression);
      if Fits(cur, s[hi], before, total, compression) {
        GathersNext(cur, s, lo, hi, total, compression);
        cuts := CompressedRuns(Combine(cur, s[hi]), s, lo, hi + 1, total, compression);
      } else {
        GathersOne(s, hi, total, compression);
        WeightSplit(s, lo, hi);
        var rest := CompressedRuns(s[hi], s, hi, hi + 1, total, compression);
        cuts := [lo] + rest;
        NextRun(cur, s, lo, hi, Compressed(s[hi], Weight(s[..hi]), s[hi + 1..], total, compression), rest, total, compression);
      }
    }
  }

  lemma LastRun(cur: Centroid, s: seq<Centroid>, lo: int, hi: int, total: real, compression: real)
    requires total != 0.0 && Gathers(cur, s, lo, hi, total, compression) && hi == |s|
    ensures CutsFrom([cur], s, lo, [lo, hi], total, compression)
  {
    hide Weight, Moment, WithinLimit;
    assert IsRun([cur], s, [lo, hi], 0, total, compression);
  }

  lemma NextRun(cur: Centroid, s: seq<Centroid>, lo: int, hi: int, r: seq<Centroid>, rest: seq<int>, total: real, compression: real)
    requires total != 0.0 && Gathers(cur, s, lo, hi, total, compression) && hi < |s|
    requires !WithinLimit(cur.weight + s[hi].weight, Weight(s[..lo]), total, compression)
    requires CutsFrom(r, s, hi, rest, total, compression)
    ensures CutsFrom([cur] + r, s, lo, [lo] + rest, total, compression)
  {
    hide Weight, Moment, WithinLimit;
    var all, cuts := [cur] + r, [lo] + rest;
    forall k | 0 <= k < |all| ensures IsRun(all, s, cuts, k, total, compression) {
      if k > 0 {
        assert IsRun(r, s, rest, k - 1, total, compression);
        assert all[k] == r[k - 1] && cuts[k] == rest[k - 1] && cuts[k + 1] == rest[k];
      }
    }
  }

  /** The whole pass. */
  lemma PassRuns(s: seq<Centroid>, total: real, compression: real) returns (cuts: seq<int>)
    requires total != 0.0 && compression > 0.0 && s != [] && Positive(s) && Sorted(s)
    ensures s[0].weight > 0.0 && Positive(s[1..])
    ensures CutsFrom(Compressed(s[0], 0.0, s[1..], total, compression), s, 0, cuts, total, compression)
  {
    hide CutsFrom, Compressed;
    GathersOne(s, 0, total, compression);
    cuts := CompressedRuns(s[0], s, 0, 1, total, compression);
    assert Weight(s[..0]) == 0.0;
  }

  // ---- few samples stay apart -------------------------------------------------------------------------

  lemma Parabola(q: real)
    ensures 4.0 * q * (1.0 - q) <= 1.0
  {
    var d := 2.0 * q - 1.0;
    assert d * d >= 0.0;
    assert d * d == 1.0 - 4.0 * q * (1.0 - q);
  }

  lemma PairTooHeavy(before: real, total: real, compression: real)
    requires 0.0 < total <= compression
    ensures !WithinLimit(2.0, before, total, compression)
  {
    var q := (before + 1.0) / total;
    Parabola(q);
    var p := 4.0 * q * (1.0 - q);
    assert 4.0 * total * q * (1.0 - q) == total * p;
    assert total * p <= total;
  }

  /** Samples of unit weight, no more of them than the compression, are all kept. */
  lemma {:induction false} FewStayApart(s: seq<Centroid>, i: int, before: real, total: real, compression: real)
    requires 0 <= i < |s| && 0.0 < total <= compression && forall j :: 0 <= j < |s| ==> s[j].weight == 1.0
    ensures Compressed(s[i], before, s[i + 1..], total, compression) == s[i..]
    decreases |s| - i
  {
    hide Fits, WithinLimit;
    if i + 1 < |s| {
      FitsIffWithinLimit(s[i], s[i + 1], before, total, compression);
      PairTooHeavy(before, total, compression);
      assert s[i + 1..][1..] == s[i + 2..];
      FewStayApart(s, i + 1, before + 1.0, total, compression);
    }
  }
}
