/** Weighted clusters on values: total weight, weighted sum, merging of neighbours and
    interpolation between centres. */
module Centroids {
  import opened Fractions

  datatype Centroid = Centroid(mean: real, weight: real)

  predicate Positive(s: seq<Centroid>) {
    forall i :: 0 <= i < |s| ==> s[i].weight > 0.0
  }

  predicate Sorted(s: seq<Centroid>) {
    forall i, j :: 0 <= i < j < |s| ==> s[i].mean <= s[j].mean
  }

  predicate Within(s: seq<Centroid>, lo: real, hi: real) {
    forall i :: 0 <= i < |s| ==> lo <= s[i].mean <= hi
  }

  function Weight(s: seq<Centroid>): real {
    if s == [] then 0.0 else Weight(s[..|s| - 1]) + s[|s| - 1].weight
  }

  /** The sum of the samples one cluster stands for. */
  function Mass(c: Centroid): real {
    c.mean * c.weight
  }

  /** The sum of the samples a list of clusters stands for. */
  function Moment(s: seq<Centroid>): real {
    if s == [] then 0.0 else Moment(s[..|s| - 1]) + Mass(s[|s| - 1])
  }

  lemma {:induction false} TotalsConcat(a: seq<Centroid>, b: seq<Centroid>)
    ensures Weight(a + b) == Weight(a) + Weight(b)
    ensures Moment(a + b) == Moment(a) + Moment(b)
  {
    if b == [] {
      assert a + b == a;
    } else {
      assert (a + b)[..|a + b| - 1] == a + b[..|b| - 1];
      TotalsConcat(a, b[..|b| - 1]);
    }
  }

  lemma TotalsOne(c: Centroid)
    ensures Weight([c]) == c.weight && Moment([c]) == Mass(c)
  {
    assert [c][..0] == [];
  }

  lemma {:induction false} WeightPositive(s: seq<Centroid>)
    requires Positive(s)
    ensures Weight(s) >= 0.0 && (s != [] ==> Weight(s) > 0.0)
  {
    if s != [] {
      WeightPositive(s[..|s| - 1]);
    }
  }

  lemma RemoveOne(s: seq<Centroid>, i: int)
    requires 0 <= i < |s|
    ensures multiset(s[..i] + s[i + 1..]) == multiset(s) - multiset{s[i]}
    ensures Weight(s) == Weight(s[..i] + s[i + 1..]) + s[i].weight
    ensures Moment(s) == Moment(s[..i] + s[i + 1..]) + Mass(s[i])
  {
    hide Weight, Moment, Mass;
    var head, x, tail := s[..i], s[i], s[i + 1..];
    assert s == head + [x] + tail;
    assert multiset(s) == multiset(head) + multiset{x} + multiset(tail);
    TotalsConcat(head + [x], tail);
    TotalsConcat(head, [x]);
    TotalsConcat(head, tail);
    TotalsOne(x);
  }

  /** Totals do not depend on the order of the clusters. */
  lemma {:induction false} TotalsPermuted(a: seq<Centroid>, b: seq<Centroid>)
    requires multiset(a) == multiset(b)
    ensures Weight(a) == Weight(b) && Moment(a) == Moment(b)
    decreases |a|
  {
    hide Weight, Moment, Mass;
    if a == [] {
      assert |multiset(b)| == 0;
      assert b == [];
    } else {
      var x := a[0];
      assert x in multiset(a);
      assert x in multiset(b);
      var i :| 0 <= i < |b| && b[i] == x;
      RemoveOne(a, 0);
      RemoveOne(b, i);
      TotalsPermuted(a[..0] + a[1..], b[..i] + b[i + 1..]);
    }
  }

  lemma PermutedBounds(a: seq<Centroid>, b: seq<Centroid>, lo: real, hi: real)
    requires multiset(a) == multiset(b) && Within(a, lo, hi) && Positive(a)
    ensures Within(b, lo, hi) && Positive(b) && |a| == |b|
  {
    assert |multiset(a)| == |a| && |multiset(b)| == |b|;
    forall i | 0 <= i < |b| ensures lo <= b[i].mean <= hi && b[i].weight > 0.0 {
      assert b[i] in multiset(b);
      assert b[i] in multiset(a);
    }
  }

  // ---- merging neighbours ---------------------------------------------------------------------

  function Combine(a: Centroid, b: Centroid): Centroid
    requires a.weight > 0.0 && b.weight > 0.0
  {
    Centroid(a.mean + b.weight * (b.mean - a.mean) / (a.weight + b.weight), a.weight + b.weight)
  }

  /** The weighted-mean update keeps weight and sum exact and stays between the two means. */
  lemma CombineExact(a: Centroid, b: Centroid)
    requires a.weight > 0.0 && b.weight > 0.0 && a.mean <= b.mean
    ensures Mass(Combine(a, b)) == Mass(a) + Mass(b)
    ensures a.mean <= Combine(a, b).mean <= b.mean
  {
    var total := a.weight + b.weight;
    var step := b.weight * (b.mean - a.mean) / total;
    var rise := b.mean - a.mean;
    Division(b.weight * rise, total);
    assert step * total == b.weight * rise;
    WeightedStep(a.mean, a.weight, b.mean, b.weight, step);
    StepBounds(step, total, b.weight, rise);
  }

  lemma WeightedStep(m: real, w: real, n: real, v: real, step: real)
    requires step * (w + v) == v * (n - m)
    ensures (m + step) * (w + v) == m * w + n * v
  {
    assert (m + step) * (w + v) == m * w + m * v + step * (w + v);
    assert v * (n - m) == v * n - v * m;
  }

  lemma StepBounds(step: real, total: real, part: real, rise: real)
    requires 0.0 < part < total && 0.0 <= rise && step * total == part * rise
    ensures 0.0 <= step <= rise
  {
    ProductOrder(part, total, rise);
    NonNegativeFactor(step, total);
    assert (rise - step) * total == rise * total - step * total;
    NonNegativeFactor(rise - step, total);
  }

  lemma ProductOrder(part: real, total: real, rise: real)
    requires 0.0 < part < total && 0.0 <= rise
    ensures 0.0 <= part * rise <= total * rise
  {
    assert (total - part) * rise >= 0.0;
    assert (total - part) * rise == total * rise - part * rise;
  }

  /** Whether the next cluster still fits into the current one. */
  predicate Fits(cur: Centroid, next: Centroid, before: real, total: real, compression: real)
    requires total != 0.0 && compression != 0.0
  {
    var proposed := cur.weight + next.weight;
    var q := (before + proposed / 2.0) / total;
    var limit := 4.0 * total * q * (1.0 - q) / compression;
    proposed <= limit || (limit < 1.0 && proposed <= 1.0)
  }

  /** One pass over sorted clusters: `cur` absorbs its successors while they fit. */
  function Compressed(cur: Centroid, before: real, rest: seq<Centroid>, total: real, compression: real): seq<Centroid>
    requires total != 0.0 && compression != 0.0 && cur.weight > 0.0 && Positive(rest)
    decreases |rest|
  {
    if rest == [] then [cur]
    else if Fits(cur, rest[0], before, total, compression) then
      Compressed(Combine(cur, rest[0]), before, rest[1..], total, compression)
    else [cur] + Compressed(rest[0], before + cur.weight, rest[1..], total, compression)
  }

  /** `r` stands for the same samples as `s`, sorted between the given bounds. */
  ghost predicate Condenses(r: seq<Centroid>, s: seq<Centroid>, lo: real, hi: real) {
    && Weight(r) == Weight(s) && Moment(r) == Moment(s)
    && Sorted(r) && Within(r, lo, hi) && Positive(r) && 1 <= |r| <= |s|
  }

  /** Sorted clusters, the first of which is about to absorb the others. */
  ghost predicate Pending(cur: Centroid, rest: seq<Centroid>, hi: real) {
    && cur.weight > 0.0 && cur.mean <= hi && Positive(rest) && Sorted(rest) && Within(rest, cur.mean, hi)
  }

  /** The pass conserves weight and sum, keeps the clusters sorted between the least and the
      greatest mean, and never lengthens the list. */
  lemma {:induction false} CompressedKeeps(cur: Centroid, before: real, rest: seq<Centroid>, total: real, compression: real, hi: real)
    requires total != 0.0 && compression != 0.0 && Pending(cur, rest, hi)
    ensures Condenses(Compressed(cur, before, rest, total, compression), [cur] + rest, cur.mean, hi)
    decreases |rest|
  {
    hide Fits, Combine, Condenses, Pending, Weight, Moment;
    PendingPositive(cur, rest, hi);
    if rest == [] {
      assert [cur] + rest == [cur];
      CondenseOne(cur, hi);
    } else {
      PendingNext(cur, rest, hi);
      if Fits(cur, rest[0], before, total, compression) {
        CompressedKeeps(Combine(cur, rest[0]), before, rest[1..], total, compression, hi);
        CondenseCombined(Compressed(Combine(cur, rest[0]), before, rest[1..], total, compression), cur, rest, hi);
      } else {
        CompressedKeeps(rest[0], before + cur.weight, rest[1..], total, compression, hi);
        CondenseKept(Compressed(rest[0], before + cur.weight, rest[1..], total, compression), cur, rest, hi);
      }
    }
  }

  lemma PendingPositive(cur: Centroid, rest: seq<Centroid>, hi: real)
    requires Pending(cur, rest, hi)
    ensures cur.weight > 0.0 && cur.mean <= hi && Positive(rest)
  {
  }

  lemma CondenseOne(cur: Centroid, hi: real)
    requires cur.weight > 0.0 && cur.mean <= hi
    ensures Condenses([cur], [cur], cur.mean, hi)
  {
  }

  lemma PendingNext(cur: Centroid, rest: seq<Centroid>, hi: real)
    requires Pending(cur, rest, hi) && rest != []
    ensures rest[0].weight > 0.0 && cur.mean <= rest[0].mean <= hi && Pending(rest[0], rest[1..], hi)
    ensures Combine(cur, rest[0]).weight > 0.0 && cur.mean <= Combine(cur, rest[0]).mean
    ensures Pending(Combine(cur, rest[0]), rest[1..], hi)
  {
    hide Combine;
    CombineExact(cur, rest[0]);
    CombineWeight(cur, rest[0]);
  }

  lemma CombineWeight(a: Centroid, b: Centroid)
    requires a.weight > 0.0 && b.weight > 0.0
    ensures Combine(a, b).weight == a.weight + b.weight
  {
  }

  lemma CondenseCombined(r: seq<Centroid>, cur: Centroid, rest: seq<Centroid>, hi: real)
    requires rest != [] && cur.weight > 0.0 && rest[0].weight > 0.0 && cur.mean <= rest[0].mean
    requires Condenses(r, [Combine(cur, rest[0])] + rest[1..], Combine(cur, rest[0]).mean, hi)
    ensures Condenses(r, [cur] + rest, cur.mean, hi)
  {
    hide Combine, Weight, Moment, Mass;
    var c, tail := Combine(cur, rest[0]), rest[1..];
    CombineExact(cur, rest[0]);
    CombineWeight(cur, rest[0]);
    TotalsConcat([c], tail);
    TotalsOne(c);
    assert [cur] + rest == [cur] + [rest[0]] + tail;
    TotalsConcat([cur] + [rest[0]], tail);
    TotalsConcat([cur], [rest[0]]);
    TotalsOne(cur);
    TotalsOne(rest[0]);
  }

  lemma CondenseKept(r: seq<Centroid>, cur: Centroid, rest: seq<Centroid>, hi: real)
    requires rest != [] && cur.weight > 0.0 && cur.mean <= rest[0].mean && cur.mean <= hi
    requires Condenses(r, [rest[0]] + rest[1..], rest[0].mean, hi)
    ensures Condenses([cur] + r, [cur] + rest, cur.mean, hi)
  {
    hide Weight, Moment;
    assert [rest[0]] + rest[1..] == rest;
    TotalsConcat([cur], r);
    TotalsConcat([cur], rest);
  }

  // ---- interpolation --------------------------------------------------------------------------------

  function Linear(a: real, b: real, z: real): real {
    a * (1.0 - z) + b * z
  }

  /** From `a` towards `b` by a fraction of the way. */
  function Climb(a: real, b: real, z: real): real {
    a + (b - a) * z
  }

  /** From the last cluster's centre to the greatest sample; a fraction above one is cut off. */
  function TailValue(c: Centroid, reached: real, index: real, max: real): real
    requires c.weight > 0.0
  {
    Climb(c.mean, max, AtMostOne((index - reached) / (c.weight / 2.0)))
  }

  function AtMostOne(z: real): real {
    if z > 1.0 then 1.0 else z
  }

  /** From the first cluster's centre, reached at weight `reached`, up to the greatest sample. */
  function Interpolate(s: seq<Centroid>, reached: real, index: real, max: real): real
    requires s != [] && Positive(s)
  {
    if |s| == 1 then TailValue(s[0], reached, index, max)
    else
      var width := (s[0].weight + s[1].weight) / 2.0;
      if index < reached + width then Linear(s[0].mean, s[1].mean, (index - reached) / width)
      else Interpolate(s[1..], reached + width, index, max)
  }

  lemma ClimbMonotone(a: real, b: real, y: real, z: real)
    requires a <= b && 0.0 <= y <= z <= 1.0
    ensures a <= Climb(a, b, y) <= Climb(a, b, z) <= b
  {
    var rise := b - a;
    Scaled(rise, y);
    Scaled(rise, z - y);
    Scaled(rise, 1.0 - z);
    Distributes(rise, z, y);
    Distributes(rise, 1.0, z);
  }

  lemma Distributes(d: real, y: real, z: real)
    ensures d * (y - z) == d * y - d * z
  {
  }

  lemma LinearIsClimb(a: real, b: real, z: real)
    ensures Linear(a, b, z) == Climb(a, b, z)
  {
    Distributes(a, 1.0, z);
    var az, bz := a * z, b * z;
    assert (b - a) * z == bz - az;
  }

  lemma TailMonotone(c: Centroid, reached: real, index: real, later: real, max: real)
    requires c.weight > 0.0 && c.mean <= max && reached <= index <= later
    ensures c.mean <= TailValue(c, reached, index, max) <= TailValue(c, reached, later, max) <= max
  {
    hide Climb;
    var half := c.weight / 2.0;
    Fraction(index - reached, later - reached, half);
    ClimbMonotone(c.mean, max, AtMostOne((index - reached) / half), AtMostOne((later - reached) / half));
  }

  /** Between two centres the estimate rises from one mean to the other. */
  lemma PieceMonotone(a: real, b: real, start: real, width: real, index: real, later: real)
    requires a <= b && width > 0.0 && start <= index <= later <= start + width
    ensures a <= Linear(a, b, (index - start) / width) <= Linear(a, b, (later - start) / width) <= b
  {
    hide Linear, Climb;
    Fraction(index - start, later - start, width);
    var y, z := (index - start) / width, (later - start) / width;
    LinearIsClimb(a, b, y);
    LinearIsClimb(a, b, z);
    ClimbMonotone(a, b, y, z);
  }

  /** Interpolated values never leave the range from the first centre to the greatest sample. */
  lemma {:induction false} InterpolateBounds(s: seq<Centroid>, reached: real, index: real, max: real)
    requires s != [] && Positive(s) && Sorted(s) && s[|s| - 1].mean <= max && reached <= index
    ensures s[0].mean <= Interpolate(s, reached, index, max) <= max
    decreases |s|
  {
    hide Linear, TailValue;
    if |s| == 1 {
      TailMonotone(s[0], reached, index, index, max);
    } else {
      var width := (s[0].weight + s[1].weight) / 2.0;
      assert s[1].mean <= s[|s| - 1].mean || |s| == 2;
      if index < reached + width {
        PieceMonotone(s[0].mean, s[1].mean, reached, width, index, index);
      } else {
        InterpolateBounds(s[1..], reached + width, index, max);
      }
    }
  }

  lemma {:induction false} InterpolateMonotone(s: seq<Centroid>, reached: real, index: real, later: real, max: real)
    requires s != [] && Positive(s) && Sorted(s) && s[|s| - 1].mean <= max && reached <= index <= later
    ensures Interpolate(s, reached, index, max) <= Interpolate(s, reached, later, max)
    decreases |s|
  {
    hide Linear, TailValue;
    if |s| == 1 {
      TailMonotone(s[0], reached, index, later, max);
    } else {
      var width := (s[0].weight + s[1].weight) / 2.0;
      if later < reached + width {
        PieceMonotone(s[0].mean, s[1].mean, reached, width, index, later);
      } else if index < reached + width {
        PieceMonotone(s[0].mean, s[1].mean, reached, width, index, index);
        InterpolateBounds(s[1..], reached + width, later, max);
      } else {
        InterpolateMonotone(s[1..], reached + width, index, later, max);
      }
    }
  }

  /** From the least sample up to the first cluster's centre. */
  function HeadValue(c: Centroid, min: real, index: real): real
    requires c.weight > 0.0
  {
    Climb(min, c.mean, index / (c.weight / 2.0))
  }

  lemma HeadMonotone(c: Centroid, min: real, index: real, later: real)
    requires c.weight > 0.0 && min <= c.mean && 0.0 <= index <= later <= c.weight / 2.0
    ensures min <= HeadValue(c, min, index) <= HeadValue(c, min, later) <= c.mean
  {
    hide Climb;
    var half := c.weight / 2.0;
    Fraction(index, later, half);
    ClimbMonotone(min, c.mean, index / half, later / half);
  }

  /** The estimate at `q` for sorted clusters of total weight `count`. */
  function QuantileOf(s: seq<Centroid>, count: real, min: real, max: real, q: real): real
    requires s != [] && Positive(s)
  {
    if q <= 0.0 then min
    else if q >= 1.0 then max
    else if |s| == 1 then s[0].mean
    else
      var index, half := q * count, s[0].weight / 2.0;
      if index < half then HeadValue(s[0], min, index)
      else Interpolate(s, half, index, max)
  }

  ghost predicate Ready(s: seq<Centroid>, count: real, min: real, max: real) {
    s != [] && Positive(s) && Sorted(s) && Within(s, min, max) && count > 0.0
  }

  lemma QuantileBounds(s: seq<Centroid>, count: real, min: real, max: real, q: real)
    requires Ready(s, count, min, max)
    ensures min <= QuantileOf(s, count, min, max, q) <= max
  {
    hide Interpolate, HeadValue;
    assert min <= s[0].mean <= max;
    if 0.0 < q < 1.0 && |s| > 1 {
      var index, half := q * count, s[0].weight / 2.0;
      Scaled(q, count);
      if index < half {
        HeadMonotone(s[0], min, index, index);
      } else {
        InterpolateBounds(s, half, index, max);
      }
    }
  }

  /** A larger quantile is never smaller, across head, middle and tail. */
  lemma QuantileMonotone(s: seq<Centroid>, count: real, min: real, max: real, p: real, q: real)
    requires Ready(s, count, min, max) && p <= q
    ensures QuantileOf(s, count, min, max, p) <= QuantileOf(s, count, min, max, q)
  {
    hide Interpolate, HeadValue;
    QuantileBounds(s, count, min, max, p);
    QuantileBounds(s, count, min, max, q);
    if 0.0 < p && q < 1.0 && |s| > 1 {
      var i, j, half := p * count, q * count, s[0].weight / 2.0;
      Scaled(p, count);
      Scaled(q - p, count);
      assert (q - p) * count == j - i;
      if j < half {
        HeadMonotone(s[0], min, i, j);
      } else if i < half {
        HeadMonotone(s[0], min, i, i);
        InterpolateBounds(s, half, j, max);
      } else {
        InterpolateMonotone(s, half, i, j, max);
      }
    }
  }

  /** The estimate, case by case. */
  lemma QuantileCases(s: seq<Centroid>, count: real, min: real, max: real, q: real, index: real)
    requires s != [] && Positive(s) && index == q * count
    ensures s[0].weight > 0.0
    ensures q <= 0.0 ==> QuantileOf(s, count, min, max, q) == min
    ensures 1.0 <= q ==> QuantileOf(s, count, min, max, q) == max
    ensures 0.0 < q < 1.0 && |s| == 1 ==> QuantileOf(s, count, min, max, q) == s[0].mean
    ensures 0.0 < q < 1.0 && |s| > 1 && index < s[0].weight / 2.0 ==>
              QuantileOf(s, count, min, max, q) == HeadValue(s[0], min, index)
    ensures 0.0 < q < 1.0 && |s| > 1 && index >= s[0].weight / 2.0 ==>
              QuantileOf(s, count, min, max, q) == Interpolate(s, s[0].weight / 2.0, index, max)
  {
    hide HeadValue, Interpolate;
  }

  /** The tail's clamp to one is a rounding guard: with exact weights it never applies. */
  lemma {:induction false} TailClampUnused(s: seq<Centroid>, reached: real, index: real, count: real)
    requires s != [] && Positive(s) && index < count
    requires reached == count - Weight(s) + s[0].weight / 2.0
    ensures var last := s[|s| - 1];
            (index - (count - last.weight / 2.0)) / (last.weight / 2.0) < 1.0
            && (|s| > 1 ==> reached + (s[0].weight + s[1].weight) / 2.0 == count - Weight(s[1..]) + s[1].weight / 2.0)
  {
    var half := s[|s| - 1].weight / 2.0;
    var z := (index - (count - half)) / half;
    Division(index - (count - half), half);
    assert (1.0 - z) * half == half - z * half;
    NonNegativeFactor(1.0 - z, half);
    if |s| > 1 {
      assert s == [s[0]] + s[1..];
      TotalsConcat([s[0]], s[1..]);
      TotalsOne(s[0]);
    }
  }
}
