/** Bucket arithmetic on Unix milliseconds.
    Go's `/` and `%` truncate toward zero, so both are written out here. */
module Clock {

  const MINUTE: int := 60_000
  const NORMALIZE_LIMIT: int := 10_000_000_000_000
  const NANOS_PER_MILLI: int := 1_000_000

  function GoDiv(a: int, b: int): int
    requires b > 0
  {
    if a >= 0 then a / b else -((-a) / b)
  }

  function GoMod(a: int, b: int): int
    requires b > 0
  {
    a - GoDiv(a, b) * b
  }

  /** Start of the bucket of width `size` holding `ts`; floors below the epoch too. */
  function BucketStart(ts: int, size: int): (r: int)
    ensures size <= 0 ==> r == ts
    ensures size > 0 ==> r % size == 0 && r <= ts < r + size
  {
    if size <= 0 then ts
    else
      var q := GoDiv(ts, size);
      var floor := if ts < 0 && GoMod(ts, size) != 0 then q - 1 else q;
      BucketStartBounds(ts, size, floor);
      floor * size
  }

  lemma BucketStartBounds(ts: int, size: int, floor: int)
    requires size > 0
    requires floor == if ts < 0 && GoMod(ts, size) != 0 then GoDiv(ts, size) - 1 else GoDiv(ts, size)
    ensures (floor * size) % size == 0 && floor * size <= ts < floor * size + size
  {
    MultipleMod(floor, size);
    if ts >= 0 {
      assert ts == (ts / size) * size + ts % size;
    } else {
      var m := -ts;
      assert m == (m / size) * size + m % size;
      assert GoMod(ts, size) == -(m % size);
      assert (GoDiv(ts, size) - 1) * size == GoDiv(ts, size) * size - size;
    }
  }

  lemma MultipleMod(q: int, size: int)
    requires size > 0
    ensures (q * size) % size == 0
  {
    var p := q * size;
    var d := p / size - q;
    assert p == (p / size) * size + p % size;
    assert d * size == (p / size) * size - q * size;
    assert d * size == -(p % size);
    MultipleAtLeast(d, size);
  }

  lemma MultipleAtLeast(d: int, size: int)
    requires size > 0
    ensures d > 0 ==> d * size >= size
    ensures d < 0 ==> d * size <= -size
  {
    if d > 0 {
      assert (d - 1) * size >= 0;
    } else if d < 0 {
      assert (-d - 1) * size >= 0;
    }
  }

  /** Only one multiple of `size` lies in a half-open window of that width. */
  lemma MultipleUnique(a: int, b: int, size: int)
    requires size > 0 && a % size == 0 && b % size == 0
    requires -size < a - b < size
    ensures a == b
  {
    assert a == (a / size) * size && b == (b / size) * size;
    var d := a / size - b / size;
    assert d * size == a - b;
    MultipleAtLeast(d, size);
  }

  /** A coarse bucket is composed of whole finer buckets. */
  lemma BucketNested(ts: int, fine: int, coarse: int)
    requires fine > 0 && coarse > 0 && coarse % fine == 0
    ensures BucketStart(BucketStart(ts, fine), coarse) == BucketStart(ts, coarse)
    ensures BucketStart(ts, fine) + fine <= BucketStart(ts, coarse) + coarse
    ensures BucketStart(ts, coarse) <= BucketStart(ts, fine)
  {
    var f := BucketStart(ts, fine);
    var c := BucketStart(ts, coarse);
    DividesTransitive(c, coarse, fine);
    DividesTransitive(c + coarse, coarse, fine);
    // c and c + coarse are multiples of fine, with c <= ts < c + coarse
    if f < c {
      MultipleUnique(f, c, fine);
    }
    if f + fine > c + coarse {
      MultipleUnique(f, c + coarse, fine);
    }
    MultipleUnique(BucketStart(f, coarse), c, coarse);
  }

  lemma DividesTransitive(a: int, coarse: int, fine: int)
    requires fine > 0 && coarse > 0 && coarse % fine == 0
    requires a % coarse == 0
    ensures a % fine == 0
    ensures (a + coarse) % coarse == 0
  {
    var q := a / coarse;
    var k := coarse / fine;
    assert a == q * coarse;
    assert coarse == k * fine;
    assert q * (k * fine) == (q * k) * fine;
    MultipleMod(q * k, fine);
    assert (q + 1) * coarse == a + coarse;
    MultipleMod(q + 1, coarse);
  }

  lemma DifferenceDivides(a: int, b: int, step: int)
    requires step > 0 && a % step == 0 && b % step == 0
    ensures (a - b) % step == 0
  {
    assert a == (a / step) * step && b == (b / step) * step;
    assert (a / step - b / step) * step == a - b;
    MultipleMod(a / step - b / step, step);
  }

  lemma SumDivides(a: int, b: int, step: int)
    requires step > 0 && a % step == 0 && b % step == 0
    ensures (a + b) % step == 0
  {
    assert a == (a / step) * step && b == (b / step) * step;
    assert (a / step + b / step) * step == a + b;
    MultipleMod(a / step + b / step, step);
  }

  lemma BucketMonotone(a: int, b: int, size: int)
    requires size > 0 && a <= b
    ensures BucketStart(a, size) <= BucketStart(b, size)
  {
    var p, q := BucketStart(a, size), BucketStart(b, size);
    if q < p {
      MultipleUnique(p, q, size);
    }
  }

  /** The aggregation path aligns nanoseconds with a normalised remainder. */
  function AlignTime(nano: int, size: int): int
    requires size > 0
  {
    var rem := GoMod(GoMod(nano, size) + size, size);
    nano - rem
  }

  /** Both alignments agree on whole milliseconds, before the epoch as well. */
  lemma AlignTimeIsBucketStart(ts: int, size: int)
    requires size > 0
    ensures AlignTime(ts * NANOS_PER_MILLI, size * NANOS_PER_MILLI) == BucketStart(ts, size) * NANOS_PER_MILLI
  {
    hide AlignTime, BucketStart;
    var nano, wide := ts * NANOS_PER_MILLI, size * NANOS_PER_MILLI;
    AlignTimeBounds(nano, wide);
    var b := BucketStart(ts, size);
    assert b == (b / size) * size;
    assert (b / size) * wide == b * NANOS_PER_MILLI;
    MultipleMod(b / size, wide);
    MultipleUnique(AlignTime(nano, wide), b * NANOS_PER_MILLI, wide);
  }

  lemma AlignTimeBounds(nano: int, size: int)
    requires size > 0
    ensures AlignTime(nano, size) % size == 0
    ensures AlignTime(nano, size) <= nano < AlignTime(nano, size) + size
  {
    var first := GoMod(nano, size);
    if nano >= 0 {
      assert nano == (nano / size) * size + nano % size;
      assert first == nano % size;
    } else {
      var m := -nano;
      assert m == (m / size) * size + m % size;
      assert first == -(m % size);
    }
    var lifted := first + size;
    assert 0 < lifted < 2 * size;
    assert lifted == (lifted / size) * size + lifted % size;
    var rem := GoMod(lifted, size);
    assert rem == lifted % size;
    var k := GoDiv(nano, size) - 1 + lifted / size;
    assert nano - rem == nano - lifted + (lifted / size) * size;
    assert nano - lifted == (GoDiv(nano, size) - 1) * size;
    assert k * size == (GoDiv(nano, size) - 1) * size + (lifted / size) * size;
    MultipleMod(k, size);
  }

  /** The merge path rewrites buckets that look like nanoseconds. */
  function NormalizeBucket(bucket: int): int {
    if bucket > NORMALIZE_LIMIT || bucket < -NORMALIZE_LIMIT then GoDiv(bucket, NANOS_PER_MILLI) else bucket
  }

  /** It leaves a bucket alone exactly within ten trillion milliseconds of the epoch. */
  lemma NormalizeIsIdentityWithinLimit(bucket: int)
    ensures NormalizeBucket(bucket) == bucket <==> -10_000_000_000_000 <= bucket <= 10_000_000_000_000
    ensures NormalizeBucket(bucket) != bucket && bucket < 0 ==> NormalizeBucket(bucket) < 0
  {
    if bucket > NORMALIZE_LIMIT {
      assert bucket / NANOS_PER_MILLI < bucket;
    } else if bucket < -NORMALIZE_LIMIT {
      assert (-bucket) / NANOS_PER_MILLI < -bucket;
      assert (-bucket) / NANOS_PER_MILLI >= 10_000_000;
    }
  }
}
