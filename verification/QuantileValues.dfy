/** Where an estimate lies: on the broken line through the centres of the clusters, from the least
    to the greatest sample. */
module QuantileValues {
  import opened Fractions
  import opened Centroids

  /** The weight up to the centre of cluster `i`. */
  function Centre(s: seq<Centroid>, i: int): real
    requires 0 <= i < |s|
  {
    Weight(s[..i]) + s[i].weight / 2.0
  }

  /** Point (index, r) lies on the line from (c, a) to (d, b). */
  predicate OnLine(r: real, index: real, c: real, a: real, d: real, b: real) {
    (r - a) * (d - c) == (b - a) * (index - c)
  }

  /** Between the centres of neighbours the estimate is on the line through them; before the first and
      behind the last it is on the lines from the least and to the greatest sample. */
  ghost predicate OnPieces(s: seq<Centroid>, count: real, min: real, max: real, index: real, r: real)
    requires s != []
  {
    var n := |s|;
    && (index <= Centre(s, 0) ==> OnLine(r, index, 0.0, min, Centre(s, 0), s[0].mean))
    && (forall i :: 0 <= i < n - 1 && Centre(s, i) <= index <= Centre(s, i + 1) ==>
          OnLine(r, index, Centre(s, i), s[i].mean, Centre(s, i + 1), s[i + 1].mean))
    && (index >= Centre(s, n - 1) ==> OnLine(r, index, Centre(s, n - 1), s[n - 1].mean, count, max))
  }

  /** What an estimate is, without saying how it is computed. */
  ghost predicate OnBrokenLine(s: seq<Centroid>, count: real, min: real, max: real, q: real, r: real)
    requires s != []
  {
    && (q <= 0.0 ==> r == min)
    && (q >= 1.0 ==> r == max)
    && (0.0 < q < 1.0 && |s| == 1 ==> r == s[0].mean)
    && (0.0 < q < 1.0 && |s| > 1 ==> forall index :: index == q * count ==> OnPieces(s, count, min, max, index, r))
  }

  lemma CentreStep(s: seq<Centroid>, i: int)
    requires 0 <= i < |s| - 1
    ensures Centre(s, i + 1) == Centre(s, i) + (s[i].weight + s[i + 1].weight) / 2.0
  {
    assert s[..i + 1][..i] == s[..i];
  }

  lemma {:induction false} CentresRise(s: seq<Centroid>, i: int, j: int)
    requires Positive(s) && 0 <= i <= j < |s|
    ensures i < j ==> Centre(s, i) < Centre(s, j)
    decreases j - i
  {
    hide Centre;
    if i < j {
      CentresRise(s, i, j - 1);
      CentreStep(s, j - 1);
    }
  }

  lemma LastCentre(s: seq<Centroid>)
    requires s != []
    ensures Weight(s) == Centre(s, |s| - 1) + s[|s| - 1].weight / 2.0
  {
  }

  lemma LinearOnLine(a: real, b: real, start: real, width: real, index: real)
    requires width > 0.0
    ensures OnLine(Linear(a, b, (index - start) / width), index, start, a, start + width, b)
  {
    var z := (index - start) / width;
    Division(index - start, width);
    LinearIsClimb(a, b, z);
    assert (b - a) * z * width == (b - a) * (z * width);
  }

  lemma ClimbOnLine(a: real, b: real, start: real, width: real, index: real)
    requires width > 0.0
    ensures OnLine(Climb(a, b, (index - start) / width), index, start, a, start + width, b)
  {
    LinearIsClimb(a, b, (index - start) / width);
    LinearOnLine(a, b, start, width, index);
  }

  /** The pieces from centre `i` on. */
  ghost predicate RestOnLine(s: seq<Centroid>, i: int, index: real, max: real, r: real)
    requires 0 <= i < |s|
  {
    var n := |s|;
    && (forall j :: i <= j < n - 1 && Centre(s, j) <= index <= Centre(s, j + 1) ==>
          OnLine(r, index, Centre(s, j), s[j].mean, Centre(s, j + 1), s[j + 1].mean))
    && (index >= Centre(s, n - 1) ==> OnLine(r, index, Centre(s, n - 1), s[n - 1].mean, Weight(s), max))
  }

  lemma TailOnLine(s: seq<Centroid>, index: real, max: real)
    requires s != [] && Positive(s) && Centre(s, |s| - 1) <= index < Weight(s)
    ensures var c := s[|s| - 1];
            OnLine(TailValue(c, Centre(s, |s| - 1), index, max), index, Centre(s, |s| - 1), c.mean, Weight(s), max)
  {
    hide Weight, Climb, OnLine;
    var c, start := s[|s| - 1], Centre(s, |s| - 1);
    var half := c.weight / 2.0;
    LastCentre(s);
    Fraction(index - start, index - start, half);
    ClimbOnLine(c.mean, max, start, half, index);
  }

  /** At its own centre an estimate is the mean of the cluster. */
  lemma AtCentre(s: seq<Centroid>, i: int, max: real, r: real)
    requires Positive(s) && 0 <= i < |s| && RestOnLine(s, i, Centre(s, i), max, r)
    ensures r == s[i].mean
  {
    hide Centre, Weight;
    var c := Centre(s, i);
    if i < |s| - 1 {
      CentresRise(s, i, i + 1);
      NoRise(r - s[i].mean, Centre(s, i + 1) - c);
    } else {
      LastCentre(s);
      NoRise(r - s[i].mean, Weight(s) - c);
    }
  }

  lemma NoRise(d: real, width: real)
    requires width > 0.0
    ensures d * width == 0.0 ==> d == 0.0
  {
  }

  lemma {:induction false} InterpolateOnLine(s: seq<Centroid>, i: int, index: real, max: real)
    requires Positive(s) && 0 <= i < |s| && Centre(s, i) <= index < Weight(s)
    ensures Positive(s[i..])
    ensures RestOnLine(s, i, index, max, Interpolate(s[i..], Centre(s, i), index, max))
    decreases |s| - i
  {
    hide Centre, Weight, OnLine, TailValue, Linear;
    var rest := s[i..];
    if i == |s| - 1 {
      assert rest == [s[i]];
      TailOnLine(s, index, max);
    } else {
      var width := (s[i].weight + s[i + 1].weight) / 2.0;
      assert rest[0] == s[i] && rest[1] == s[i + 1] && rest[1..] == s[i + 1..];
      CentreStep(s, i);
      if index < Centre(s, i) + width {
        LinearOnLine(s[i].mean, s[i + 1].mean, Centre(s, i), width, index);
        LaterPieces(s, i, index);
      } else {
        InterpolateOnLine(s, i + 1, index, max);
        FirstPiece(s, i, index, max, Interpolate(rest, Centre(s, i), index, max));
      }
    }
  }

  lemma LaterPieces(s: seq<Centroid>, i: int, index: real)
    requires Positive(s) && 0 <= i < |s| - 1 && index < Centre(s, i + 1)
    ensures forall j :: i < j < |s| ==> index < Centre(s, j)
  {
    hide Centre;
    forall j | i < j < |s| ensures index < Centre(s, j) {
      CentresRise(s, i + 1, j);
    }
  }

  lemma FirstPiece(s: seq<Centroid>, i: int, index: real, max: real, r: real)
    requires Positive(s) && 0 <= i < |s| - 1 && Centre(s, i + 1) <= index && RestOnLine(s, i + 1, index, max, r)
    ensures RestOnLine(s, i, index, max, r)
  {
    hide Centre, Weight;
    if index == Centre(s, i + 1) {
      AtCentre(s, i + 1, max, r);
    }
  }

  lemma HeadPieces(s: seq<Centroid>, min: real, max: real, index: real)
    requires |s| > 1 && Positive(s) && index < Centre(s, 0)
    ensures s[0].weight > 0.0 && OnPieces(s, Weight(s), min, max, index, HeadValue(s[0], min, index))
  {
    hide Centre, Weight, OnLine, HeadValue;
    FirstCentre(s);
    HeadOnLine(s[0], min, index);
    CentresRise(s, 0, 1);
    LaterPieces(s, 0, index);
  }

  lemma InnerPieces(s: seq<Centroid>, min: real, max: real, index: real)
    requires |s| > 1 && Positive(s) && Centre(s, 0) <= index < Weight(s)
    ensures OnPieces(s, Weight(s), min, max, index, Interpolate(s, Centre(s, 0), index, max))
  {
    hide Centre, Weight, OnLine, Interpolate;
    InterpolateOnLine(s, 0, index, max);
    assert s[0..] == s;
    if index == Centre(s, 0) {
      AtCentre(s, 0, max, Interpolate(s, Centre(s, 0), index, max));
      FirstCentre(s);
      HeadEnd(s[0], min);
    }
  }

  lemma Pieces(s: seq<Centroid>, count: real, min: real, max: real, q: real, index: real)
    requires |s| > 1 && Positive(s) && count == Weight(s) && 0.0 < q < 1.0 && index == q * count && 0.0 < index < count
    ensures OnPieces(s, count, min, max, index, QuantileOf(s, count, min, max, q))
  {
    hide Centre, Weight, OnPieces, Interpolate, HeadValue, QuantileOf;
    QuantileCases(s, count, min, max, q, index);
    FirstCentre(s);
    if index < Centre(s, 0) {
      HeadPieces(s, min, max, index);
    } else {
      InnerPieces(s, min, max, index);
    }
  }

  /** Every estimate lies on the broken line. */
  lemma QuantileOnBrokenLine(s: seq<Centroid>, count: real, min: real, max: real, q: real)
    requires s != [] && Positive(s) && count == Weight(s)
    ensures OnBrokenLine(s, count, min, max, q, QuantileOf(s, count, min, max, q))
  {
    hide Weight, OnPieces, QuantileOf;
    QuantileCases(s, count, min, max, q, q * count);
    if 0.0 < q < 1.0 && |s| > 1 {
      WeightPositive(s);
      forall index | index == q * count ensures OnPieces(s, count, min, max, index, QuantileOf(s, count, min, max, q)) {
        Below(q, count, index);
        Pieces(s, count, min, max, q, index);
      }
    }
  }

  lemma FirstCentre(s: seq<Centroid>)
    requires s != []
    ensures Centre(s, 0) == s[0].weight / 2.0
  {
  }

  lemma Below(q: real, count: real, index: real)
    requires 0.0 < q < 1.0 && count > 0.0 && index == q * count
    ensures 0.0 < index < count
  {
    var low, rest := -q, q - 1.0;
    NegativeProduct(low, count);
    NegativeProduct(rest, count);
    assert low * count == -index && rest * count == index - count;
  }

  lemma HeadOnLine(c: Centroid, min: real, index: real)
    requires c.weight > 0.0
    ensures OnLine(HeadValue(c, min, index), index, 0.0, min, c.weight / 2.0, c.mean)
  {
    hide Climb, OnLine;
    ClimbOnLine(min, c.mean, 0.0, c.weight / 2.0, index);
  }

  lemma HeadEnd(c: Centroid, min: real)
    ensures OnLine(c.mean, c.weight / 2.0, 0.0, min, c.weight / 2.0, c.mean)
  {
  }
}
