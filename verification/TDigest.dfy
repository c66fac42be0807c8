/** The merging digest: clusters kept in one array that is sorted and condensed in place. */
module TDigest {
  import opened Wrappers
  import opened Centroids
  import opened CentroidRuns
  import opened QuantileValues

  const DEFAULT_COMPRESSION: real := 30.0

  /** An observed extreme; `Unset` stands for the infinity a fresh digest starts from. */
  datatype Limit = Unset | At(value: real)

  ghost predicate Least(s: seq<Centroid>, m: real) {
    (exists i :: 0 <= i < |s| && s[i].mean == m) && forall i :: 0 <= i < |s| ==> m <= s[i].mean
  }

  ghost predicate Greatest(s: seq<Centroid>, m: real) {
    (exists i :: 0 <= i < |s| && s[i].mean == m) && forall i :: 0 <= i < |s| ==> s[i].mean <= m
  }

  /** `min` and `max` are the exact extremes of everything seen. */
  ghost predicate Extremes(seen: seq<Centroid>, min: Limit, max: Limit) {
    if seen == [] then min.Unset? && max.Unset?
    else min.At? && max.At? && Least(seen, min.value) && Greatest(seen, max.value)
  }

  ghost predicate Summarises(view: seq<Centroid>, seen: seq<Centroid>, min: Limit, max: Limit) {
    && Positive(view) && Positive(seen) && (view == [] <==> seen == [])
    && Weight(view) == Weight(seen) && Moment(view) == Moment(seen)
    && Extremes(seen, min, max)
    && (seen != [] ==> Within(view, min.value, max.value))
  }

  function Lower(min: Limit, x: Limit): Limit {
    if x.Unset? then min else if min.Unset? || x.value < min.value then x else min
  }

  function Higher(max: Limit, x: Limit): Limit {
    if x.Unset? then max else if max.Unset? || x.value > max.value then x else max
  }

  lemma ExtremesJoin(a: seq<Centroid>, amin: Limit, amax: Limit, b: seq<Centroid>, bmin: Limit, bmax: Limit)
    requires Extremes(a, amin, amax) && Extremes(b, bmin, bmax)
    ensures Extremes(a + b, Lower(amin, bmin), Higher(amax, bmax))
  {
    var s := a + b;
    assert forall i :: 0 <= i < |a| ==> s[i] == a[i];
    assert forall i :: 0 <= i < |b| ==> s[|a| + i] == b[i];
  }

  /** Appending the clusters of one digest to another stands for both histories. */
  lemma SummarisesJoin(a: seq<Centroid>, aseen: seq<Centroid>, amin: Limit, amax: Limit,
                       b: seq<Centroid>, bseen: seq<Centroid>, bmin: Limit, bmax: Limit)
    requires Summarises(a, aseen, amin, amax) && Summarises(b, bseen, bmin, bmax)
    ensures Summarises(a + b, aseen + bseen, Lower(amin, bmin), Higher(amax, bmax))
  {
    hide Weight, Moment, Extremes;
    TotalsConcat(a, b);
    TotalsConcat(aseen, bseen);
    ExtremesJoin(aseen, amin, amax, bseen, bmin, bmax);
    LimitsSet(aseen, amin, amax);
    LimitsSet(bseen, bmin, bmax);
  }

  lemma LimitsSet(seen: seq<Centroid>, min: Limit, max: Limit)
    requires Extremes(seen, min, max)
    ensures min.At? <==> seen != []
    ensures max.At? <==> seen != []
  {
  }

  lemma SummarisesOne(c: Centroid)
    requires c.weight > 0.0
    ensures Summarises([c], [c], At(c.mean), At(c.mean))
  {
    assert [c][0] == c;
  }

  // ---- in-place passes ---------------------------------------------------------------------------

  method InsertByMean(sorted: seq<Centroid>, c: Centroid) returns (result: seq<Centroid>)
    requires Sorted(sorted)
    ensures Sorted(result) && multiset(result) == multiset(sorted) + multiset{c}
  {
    var i := |sorted|;
    while i > 0 && sorted[i - 1].mean > c.mean
      invariant 0 <= i <= |sorted|
      invariant forall j :: i <= j < |sorted| ==> sorted[j].mean > c.mean
    {
      i := i - 1;
    }
    result := sorted[..i] + [c] + sorted[i..];
    InsertedAll(sorted, i, c);
    InsertedSorted(sorted, i, c);
  }

  lemma InsertedAll(s: seq<Centroid>, i: int, c: Centroid)
    requires 0 <= i <= |s|
    ensures multiset(s[..i] + [c] + s[i..]) == multiset(s) + multiset{c}
  {
    assert s == s[..i] + s[i..];
  }

  lemma InsertedSorted(s: seq<Centroid>, i: int, c: Centroid)
    requires Sorted(s) && 0 <= i <= |s| && (i > 0 ==> s[i - 1].mean <= c.mean)
    requires forall j :: i <= j < |s| ==> s[j].mean > c.mean
    ensures Sorted(s[..i] + [c] + s[i..])
  {
    var r := s[..i] + [c] + s[i..];
    forall j, k | 0 <= j < k < |r| ensures r[j].mean <= r[k].mean {
      assert j < i ==> r[j] == s[j] && s[j].mean <= c.mean;
      assert k > i ==> r[k] == s[k - 1];
      assert j > i ==> r[j] == s[j - 1];
    }
  }

  /** Sorts the first `n` cells by mean; equal means may come out in any order. */
  method SortByMean(cells: array<Centroid>, n: nat)
    requires n <= cells.Length
    modifies cells
    ensures Sorted(cells[..n]) && multiset(cells[..n]) == multiset(old(cells[..n]))
    ensures cells[n..] == old(cells[n..])
  {
    hide Sorted;
    var sorted: seq<Centroid> := [];
    assert Sorted(sorted) by { EmptySorted(); }
    var values := cells[..n];
    var i := 0;
    while i < n
      modifies {}
      invariant 0 <= i <= n && Sorted(sorted) && multiset(sorted) == multiset(values[..i])
    {
      assert values[..i + 1] == values[..i] + [values[i]];
      sorted := InsertByMean(sorted, values[i]);
      i := i + 1;
    }
    assert values[..i] == values;
    SameLength(sorted, values);
    WriteCells(cells, sorted);
    assert cells[..n] == sorted;
  }

  lemma EmptySorted()
    ensures Sorted([])
  {
  }

  lemma SameLength(a: seq<Centroid>, b: seq<Centroid>)
    requires multiset(a) == multiset(b)
    ensures |a| == |b|
  {
    assert |multiset(a)| == |a| && |multiset(b)| == |b|;
  }

  method WriteCells(cells: array<Centroid>, values: seq<Centroid>)
    requires |values| <= cells.Length
    modifies cells
    ensures cells[..|values|] == values && cells[|values|..] == old(cells[|values|..])
  {
    var i := 0;
    while i < |values|
      invariant 0 <= i <= |values|
      invariant forall j :: 0 <= j < i ==> cells[j] == values[j]
      invariant forall j :: i <= j < cells.Length ==> cells[j] == old(cells[j])
    {
      cells[i] := values[i];
      i := i + 1;
    }
  }

  /** Condenses sorted cells into the front of the same array. The write position stays behind
      the read position, so no unread cell is overwritten. */
  method CondenseInPlace(cells: array<Centroid>, n: nat, total: real, compression: real) returns (m: nat)
    requires 0 < n <= cells.Length && Positive(cells[..n]) && total != 0.0 && compression != 0.0
    modifies cells
    ensures 0 < m <= n
    ensures cells[..m] == Compressed(old(cells[0]), 0.0, old(cells[1..n]), total, compression)
  {
    hide Fits, Combine, Compressed, Positive;
    ghost var all := cells[..n];
    PositiveTail(all);
    assert cells[1..n] == all[1..];
    ghost var goal := Compressed(all[0], 0.0, all[1..], total, compression);
    ghost var done, rest := [], all[1..];
    var cur := cells[0];
    var before := 0.0;
    var write := 0;
    var i := 1;
    while i < n
      invariant 1 <= i <= n && 0 <= write < i && cur.weight > 0.0 && Positive(rest)
      invariant rest == cells[i..n] && done == cells[..write]
      invariant done + Compressed(cur, before, rest, total, compression) == goal
    {
      var next := cells[i];
      assert next == rest[0] && rest[1..] == cells[i + 1..n];
      PositiveTail(rest);
      CompressedNext(cur, before, rest, total, compression);
      rest := rest[1..];
      if Fits(cur, next, before, total, compression) {
        cur := Combine(cur, next);
      } else {
        Reassociate(done, cur, Compressed(next, before + cur.weight, rest, total, compression));
        PutBehind(cells, write, i + 1, n, cur, done, rest);
        done := done + [cur];
        write := write + 1;
        before := before + cur.weight;
        cur := next;
      }
      i := i + 1;
    }
    CompressedLast(cur, before, rest, total, compression);
    PutBehind(cells, write, n, n, cur, done, rest);
    return write + 1;
  }

  /** Writes one finished cell behind the read position. */
  method PutBehind(cells: array<Centroid>, write: int, read: int, n: int, c: Centroid, ghost done: seq<Centroid>, ghost rest: seq<Centroid>)
    requires 0 <= write < read <= n <= cells.Length && cells[..write] == done && cells[read..n] == rest
    modifies cells
    ensures cells[..write + 1] == done + [c] && cells[read..n] == rest
  {
    cells[write] := c;
    assert cells[..write + 1] == cells[..write] + [c];
  }

  lemma Reassociate(a: seq<Centroid>, c: Centroid, b: seq<Centroid>)
    ensures a + ([c] + b) == a + [c] + b
  {
  }

  lemma PositiveTail(s: seq<Centroid>)
    requires Positive(s) && s != []
    ensures s[0].weight > 0.0 && Positive(s[1..])
  {
  }

  lemma CompressedNext(cur: Centroid, before: real, rest: seq<Centroid>, total: real, compression: real)
    requires total != 0.0 && compression != 0.0 && cur.weight > 0.0 && Positive(rest) && rest != []
    ensures Combine(cur, rest[0]).weight > 0.0
    ensures Compressed(cur, before, rest, total, compression) ==
            if Fits(cur, rest[0], before, total, compression)
            then Compressed(Combine(cur, rest[0]), before, rest[1..], total, compression)
            else [cur] + Compressed(rest[0], before + cur.weight, rest[1..], total, compression)
  {
    hide Fits;
    CombineWeight(cur, rest[0]);
  }

  lemma CompressedLast(cur: Centroid, before: real, rest: seq<Centroid>, total: real, compression: real)
    requires total != 0.0 && compression != 0.0 && cur.weight > 0.0 && rest == []
    ensures Compressed(cur, before, rest, total, compression) == [cur]
  {
  }

  /** The clusters a digest is left with when it had gathered `all`: kept as they are while there is
      room for 8 * compression + 16 of them, and otherwise condensed in order of their means. */
  ghost predicate LeftOf(view: seq<Centroid>, all: seq<Centroid>, total: real, compression: real) {
    if |all| <= (8.0 * compression).Floor + 16 then view == all
    else total != 0.0 && exists sorted, cuts ::
           Sorted(sorted) && multiset(sorted) == multiset(all) && CutsFrom(view, sorted, 0, cuts, total, compression)
  }

  class TDigest {
    var compression: real
    var cells: array<Centroid>
    var used: nat
    var count: real
    var min: Limit
    var max: Limit
    var processed: bool
    // For the proof: every weighted value added so far.
    ghost var seen: seq<Centroid>

    ghost function View(): seq<Centroid>
      reads this, cells
      requires used <= cells.Length
    {
      cells[..used]
    }

    ghost predicate Valid()
      reads this, cells
    {
      && used <= cells.Length && compression > 1.0
      && Summarises(View(), seen, min, max) && count == Weight(View())
      && (processed ==> Sorted(View()))
    }

    /** Clusters that are not condensed yet never pile up beyond 8 * compression + 16. */
    ghost predicate Bounded()
      reads this
    {
      processed || used <= (8.0 * compression).Floor + 16
    }

    constructor (compression: real)
      ensures Valid() && Bounded() && seen == [] && count == 0.0 && fresh(cells)
      ensures this.compression == if compression <= 1.0 then DEFAULT_COMPRESSION else compression
    {
      this.compression := if compression <= 1.0 then DEFAULT_COMPRESSION else compression;
      cells := new Centroid[0];
      used, count := 0, 0.0;
      min, max := Unset, Unset;
      processed := true;
      seen := [];
    }

    function ProcessThreshold(): int
      reads this
    {
      (8.0 * compression).Floor + 16
    }

    /** Appends clusters behind the used cells, moving to a larger array when they do not fit. */
    method Append(extra: seq<Centroid>)
      requires used <= cells.Length
      modifies this`cells, this`used, cells
      ensures used <= cells.Length && View() == old(View()) + extra
      ensures cells == old(cells) || fresh(cells)
    {
      var need := used + |extra|;
      ghost var view := View();
      if need > cells.Length {
        var kept := cells[..used];
        var bigger := new Centroid[2 * need](_ => Centroid(0.0, 1.0));
        WriteCells(bigger, kept);
        cells := bigger;
      }
      assert cells[..used] == view;
      CopyBehind(extra);
      used := need;
      assert View() == view + extra;
    }

    method CopyBehind(extra: seq<Centroid>)
      requires used + |extra| <= cells.Length
      modifies cells
      ensures cells[..used] == old(cells[..used]) && cells[used..used + |extra|] == extra
    {
      var i := 0;
      while i < |extra|
        invariant 0 <= i <= |extra|
        invariant forall j :: 0 <= j < used ==> cells[j] == old(cells[j])
        invariant forall j :: 0 <= j < i ==> cells[used + j] == extra[j]
      {
        cells[used + i] := extra[i];
        i := i + 1;
      }
    }

    /** Appends clusters that stand for `extraSeen`, widens the extremes, and condenses when the
        buffer is full. */
    method Absorb(extra: seq<Centroid>, weight: real, lo: Limit, hi: Limit, ghost extraSeen: seq<Centroid>)
      requires Valid() && Summarises(extra, extraSeen, lo, hi) && weight == Weight(extra)
      modifies this, cells
      ensures Valid() && (cells == old(cells) || fresh(cells)) && compression == old(compression)
      ensures seen == old(seen) + extraSeen && count == old(count) + weight
      ensures Bounded() && LeftOf(View(), old(View()) + extra, count, compression)
    {
      hide Summarises, Weight, Moment, LeftOf;
      SummarisesJoin(View(), seen, min, max, extra, extraSeen, lo, hi);
      TotalsConcat(View(), extra);
      Append(extra);
      count := count + weight;
      min, max := Lower(min, lo), Higher(max, hi);
      seen := seen + extraSeen;
      processed := false;
      Shrink();
    }

    /** Condenses a buffer that has grown too long. */
    method Shrink()
      requires Valid() && !processed
      modifies this`used, this`processed, cells
      ensures Valid() && Bounded() && LeftOf(View(), old(View()), count, compression)
    {
      hide Summarises, Weight, CutsFrom;
      if used > ProcessThreshold() {
        ghost var all := View();
        ghost var sorted, cuts := Process();
        assert multiset(sorted) == multiset(all) && CutsFrom(View(), sorted, 0, cuts, count, compression);
      }
    }

    /** Folds in one observation of weight `w`; a weight that is not positive is ignored. */
    method Add(x: real, w: real)
      requires Valid()
      modifies this, cells
      ensures Valid() && (cells == old(cells) || fresh(cells)) && compression == old(compression)
      ensures seen == if w > 0.0 then old(seen) + [Centroid(x, w)] else old(seen)
      ensures count == if w > 0.0 then old(count) + w else old(count)
      ensures old(Bounded()) ==> Bounded()
      ensures if w > 0.0 then LeftOf(View(), old(View()) + [Centroid(x, w)], count, compression) else View() == old(View())
    {
      hide Summarises, Weight;
      if w <= 0.0 {
        return;
      }
      var c := Centroid(x, w);
      SummarisesOne(c);
      TotalsOne(c);
      Absorb([c], w, At(x), At(x), [c]);
    }

    /** Folds every cluster of `other` in; merging a digest into itself doubles it. */
    method Merge(other: TDigest)
      requires Valid() && other.Valid()
      modifies this, cells
      ensures Valid() && (cells == old(cells) || fresh(cells)) && compression == old(compression)
      ensures seen == old(seen) + old(other.seen)
      ensures count == old(count) + old(other.count)
      ensures old(Bounded()) ==> Bounded()
      ensures if old(other.seen) == [] then View() == old(View())
              else LeftOf(View(), old(View()) + old(other.View()), count, compression)
    {
      hide Summarises, Weight;
      SeenNothing(other.View(), other.seen, other.min, other.max);
      if other.count == 0.0 {
        return;
      }
      Absorb(other.cells[..other.used], other.count, other.min, other.max, other.seen);
    }

    /** Sorts the clusters and condenses them in place; what they stand for does not change. */
    method Process() returns (ghost sorted: seq<Centroid>, ghost cuts: seq<int>)
      requires Valid()
      modifies this`used, this`processed, cells
      ensures Valid() && processed && 0 <= used <= old(used)
      ensures old(processed) || old(used) == 0 ==> View() == old(View())
      ensures !old(processed) && old(used) > 0 ==>
                && Sorted(sorted) && |sorted| > 0 && multiset(sorted) == multiset(old(View())) && Positive(sorted)
                && count != 0.0 && View() == Compressed(sorted[0], 0.0, sorted[1..], count, compression)
                && CutsFrom(View(), sorted, 0, cuts, count, compression)
    {
      hide Summarises, Weight, Moment, Compressed, CutsFrom;
      sorted, cuts := [], [];
      if processed {
        return;
      }
      if used == 0 {
        processed := true;
        return;
      }
      ghost var view := View();
      SortByMean(cells, used);
      sorted := View();
      SortedSummarises(view, sorted, seen, min, max);
      CondensedSummarises(sorted, seen, min, max, count, compression);
      cuts := PassRuns(sorted, count, compression);
      var m := CondenseInPlace(cells, used, count, compression);
      used := m;
      processed := true;
    }

    /** The estimated value at `q`, or nothing for an empty digest. */
    method Quantile(q: real) returns (r: Option<real>)
      requires Valid()
      modifies this`used, this`processed, cells
      ensures Valid() && processed && (old(processed) ==> View() == old(View()))
      ensures seen == [] ==> r == None
      ensures seen != [] ==>
                && Ready(View(), count, min.value, max.value)
                && r == Some(QuantileOf(View(), count, min.value, max.value, q))
                && min.value <= r.value <= max.value
                && OnBrokenLine(View(), count, min.value, max.value, q, r.value)
    {
      hide Summarises, Weight, Moment, Compressed, QuantileOf, OnBrokenLine;
      var _, _ := Process();
      SeenNothing(View(), seen, min, max);
      if used == 0 {
        return None;
      }
      QuantileBounds(View(), count, min.value, max.value, q);
      QuantileOnBrokenLine(View(), count, min.value, max.value, q);
      var v := Estimate(q);
      return Some(v);
    }

    /** Two estimates of one digest are ordered as the quantiles are, whether or not the first call
        had to condense. */
    method QuantilesInOrder(p: real, q: real) returns (lo: Option<real>, hi: Option<real>)
      requires Valid() && p <= q
      modifies this`used, this`processed, cells
      ensures Valid() && processed && (old(processed) ==> View() == old(View()))
      ensures seen == [] ==> lo == None && hi == None
      ensures seen != [] ==> lo.Some? && hi.Some? && min.value <= lo.value <= hi.value <= max.value
    {
      hide Summarises, Weight, Ready, QuantileOf, Positive;
      lo := Quantile(p);
      hi := Quantile(q);
      SeenNothing(View(), seen, min, max);
      if hi.Some? {
        QuantileMonotone(View(), count, min.value, max.value, p, q);
      }
    }

    method Estimate(q: real) returns (v: real)
      requires 0 < used <= cells.Length && Positive(View()) && min.At? && max.At?
      ensures v == QuantileOf(View(), count, min.value, max.value, q)
    {
      hide Interpolate, HeadValue, Positive, QuantileOf;
      ghost var s := View();
      assert s[0] == cells[0];
      var index := q * count;
      QuantileCases(s, count, min.value, max.value, q, index);
      if q <= 0.0 {
        return min.value;
      }
      if q >= 1.0 {
        return max.value;
      }
      if used == 1 {
        return cells[0].mean;
      }
      if index < cells[0].weight / 2.0 {
        return HeadValue(cells[0], min.value, index);
      }
      v := InterpolateCells(cells[0].weight / 2.0, index, max.value);
    }

    /** The middle and tail pieces, walking the centres from the left. */
    method InterpolateCells(start: real, index: real, max: real) returns (v: real)
      requires 0 < used <= cells.Length && Positive(View())
      ensures v == Interpolate(View(), start, index, max)
    {
      var reached := start;
      var i := 0;
      assert View()[0..] == View();
      while i < used - 1
        invariant 0 <= i < used && Positive(View()[i..])
        invariant Interpolate(View()[i..], reached, index, max) == Interpolate(View(), start, index, max)
      {
        ghost var rest := View()[i..];
        assert rest[0] == cells[i] && rest[1] == cells[i + 1] && rest[1..] == View()[i + 1..];
        var c, next := cells[i], cells[i + 1];
        var width := (c.weight + next.weight) / 2.0;
        if index < reached + width {
          return Linear(c.mean, next.mean, (index - reached) / width);
        }
        reached := reached + width;
        i := i + 1;
      }
      assert View()[i..] == [cells[i]];
      return TailValue(cells[i], reached, index, max);
    }
  }

  lemma SeenNothing(view: seq<Centroid>, seen: seq<Centroid>, min: Limit, max: Limit)
    requires Summarises(view, seen, min, max)
    ensures Weight(view) == 0.0 <==> seen == []
    ensures view == [] <==> seen == []
    ensures seen != [] ==> min.At? && max.At? && Weight(view) > 0.0 && Positive(view) && Within(view, min.value, max.value)
    ensures seen == [] ==> view == [] && min.Unset? && max.Unset?
  {
    WeightPositive(view);
  }

  lemma SortedSummarises(view: seq<Centroid>, sorted: seq<Centroid>, seen: seq<Centroid>, min: Limit, max: Limit)
    requires Summarises(view, seen, min, max) && multiset(sorted) == multiset(view)
    ensures Summarises(sorted, seen, min, max) && Weight(sorted) == Weight(view) && |sorted| == |view|
  {
    hide Weight, Moment, Extremes;
    TotalsPermuted(view, sorted);
    assert |multiset(view)| == |view| && |multiset(sorted)| == |sorted|;
    if seen != [] {
      LimitsSet(seen, min, max);
      PermutedBounds(view, sorted, min.value, max.value);
    }
  }

  lemma CondensedSummarises(sorted: seq<Centroid>, seen: seq<Centroid>, min: Limit, max: Limit, total: real, compression: real)
    requires Summarises(sorted, seen, min, max) && sorted != [] && Sorted(sorted)
    requires total == Weight(sorted) && compression > 1.0
    ensures Positive(sorted) && total != 0.0
    ensures var r := Compressed(sorted[0], 0.0, sorted[1..], total, compression);
            Summarises(r, seen, min, max) && Sorted(r) && Weight(r) == total
  {
    hide Weight, Moment, Compressed, Extremes;
    SeenNothing(sorted, seen, min, max);
    LimitsSet(seen, min, max);
    assert sorted == [sorted[0]] + sorted[1..];
    CompressedKeeps(sorted[0], 0.0, sorted[1..], total, compression, max.value);
  }
}
