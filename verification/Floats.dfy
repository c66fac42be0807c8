/** What a binary64 word stands for: the four facts of IEEE 754 that leave one value per word. */
module Floats {
  import opened Words

  predicate Finite(w: uint64) {
    (w / TWO_52) % 2048 != 2047
  }

  lemma {:induction false} Pow2Add(a: nat, b: nat)
    ensures Pow2(a + b) == Pow2(a) * Pow2(b)
  {
    if a > 0 {
      Pow2Add(a - 1, b);
      assert Pow2(a + b) == 2.0 * Pow2(a - 1 + b);
    }
  }

  lemma {:induction false} Pow2Inverse(n: int)
    requires n >= 0
    ensures Pow2(n) * Pow2(-n) == 1.0
  {
    if n > 0 {
      Pow2Inverse(n - 1);
      var a, b := Pow2(n - 1), Pow2(-(n - 1));
      assert Pow2(n) == 2.0 * a && Pow2(-n) == b / 2.0;
      assert (2.0 * a) * (b / 2.0) == a * b;
    }
  }

  lemma Pow2Step(e: int)
    ensures Pow2(e + 1) == 2.0 * Pow2(e)
  {
  }

  lemma {:induction false} Pow2Monotone(a: int, b: int)
    requires a <= b
    ensures Pow2(a) <= Pow2(b)
    decreases b - a
  {
    if a < b {
      Pow2Step(a);
      Pow2Monotone(a + 1, b);
    }
  }

  lemma FiftyTwo()
    ensures Pow2(52) == TWO_52 as real
  {
    hide Pow2;
    Pow2Thirteen();
    Pow2Add(13, 13);
    Pow2Add(26, 26);
  }

  lemma Pow2Thirteen()
    ensures Pow2(13) == 8192.0
  {
    assert Pow2(4) == 2.0 * (2.0 * (2.0 * (2.0 * Pow2(0))));
    assert Pow2(8) == 2.0 * (2.0 * (2.0 * (2.0 * Pow2(4))));
    assert Pow2(12) == 2.0 * (2.0 * (2.0 * (2.0 * Pow2(8))));
  }

  lemma UnitsInLastPlace()
    ensures TWO_52 as real * Pow2(-52) == 1.0
    ensures TWO_52 as real * Pow2(-51) == 2.0
    ensures TWO_52 as real * Pow2(-53) == 0.5
  {
    hide Pow2;
    FiftyTwo();
    Pow2Inverse(52);
    Pow2Step(-52);
    Pow2Step(-53);
  }

  lemma ScaledBounds(m: real, n: real, p: real, q: real)
    requires 0.0 <= m <= n && 0.0 < p <= q
    ensures m * p <= n * q
  {
    assert m * p <= n * p;
    assert n * p <= n * q;
  }

  function Magnitude(exponent: nat, fraction: nat): (r: real)
    requires fraction < TWO_52
    ensures r >= 0.0
  {
    if exponent == 0 then fraction as real * Pow2(-1074) else (TWO_52 + fraction) as real * Pow2(exponent - 1075)
  }

  lemma SmallMagnitude(exponent: nat, fraction: nat)
    requires fraction < TWO_52 && exponent < 1023
    ensures Magnitude(exponent, fraction) <= 1.0
  {
    hide Pow2;
    UnitsInLastPlace();
    var unit := TWO_52 as real;
    var f := fraction as real;
    if exponent == 0 {
      Pow2Monotone(-1074, -52);
      ScaledBounds(f, unit, Pow2(-1074), Pow2(-52));
    } else {
      Pow2Monotone(exponent - 1075, -53);
      ScaledBounds(unit + f, 2.0 * unit, Pow2(exponent - 1075), Pow2(-53));
    }
  }

  lemma LargeMagnitude(exponent: nat, fraction: nat)
    requires fraction < TWO_52 && exponent >= 1023
    ensures Magnitude(exponent, fraction) <= 1.0 <==> exponent == 1023 && fraction == 0
  {
    hide Pow2;
    UnitsInLastPlace();
    var unit := TWO_52 as real;
    var f := fraction as real;
    if exponent == 1023 {
      assert (unit + f) * Pow2(-52) == 1.0 + f * Pow2(-52);
      assert fraction > 0 ==> f * Pow2(-52) > 0.0;
    } else {
      Pow2Monotone(-51, exponent - 1075);
      ScaledBounds(unit, unit + f, Pow2(-51), Pow2(exponent - 1075));
    }
  }

  lemma FloatIsMagnitude(w: uint64)
    ensures var m := Magnitude((w / TWO_52) % 2048, w % TWO_52);
            FloatOf(w) == if w >= TWO_63 then -m else m
  {
    hide Pow2;
  }

  // ---- the standard's reading of a word ----------------------------------------------------------

  const ONE_WORD: uint64 := 0x3FF0_0000_0000_0000

  /** One is one. The top bit negates. The next exponent doubles. Up to the second exponent, words
      are multiples of the least positive number. */
  ghost predicate Binary64(value: uint64 -> real) {
    && value(ONE_WORD) == 1.0
    && (forall w: uint64 :: w < TWO_63 && Finite(w) ==> Negates(value, w))
    && (forall w: uint64 :: TWO_52 <= w < 2046 * TWO_52 ==> Doubles(value, w))
    && (forall w: uint64 :: w < 2 * TWO_52 ==> Counts(value, w))
  }

  ghost predicate Negates(value: uint64 -> real, w: uint64)
    requires w < TWO_63
  {
    value(w + TWO_63) == -value(w)
  }

  ghost predicate Doubles(value: uint64 -> real, w: uint64)
    requires w < 2046 * TWO_52
  {
    value(w + TWO_52) == 2.0 * value(w)
  }

  ghost predicate Counts(value: uint64 -> real, w: uint64) {
    value(w) == w as real * value(1)
  }

  lemma NextParts(w: uint64)
    requires TWO_52 <= w < 2046 * TWO_52
    ensures (w + TWO_52) / TWO_52 == w / TWO_52 + 1 && (w + TWO_52) % TWO_52 == w % TWO_52
    ensures 1 <= w / TWO_52 < 2046
  {
  }

  lemma MagnitudeDoubles(exponent: nat, fraction: nat)
    requires fraction < TWO_52 && exponent > 0
    ensures Magnitude(exponent + 1, fraction) == 2.0 * Magnitude(exponent, fraction)
  {
    hide Pow2;
    var m, p := (TWO_52 + fraction) as real, Pow2(exponent - 1075);
    Pow2Step(exponent - 1075);
    assert m * (2.0 * p) == 2.0 * (m * p);
  }

  lemma NextExponent(w: uint64)
    requires TWO_52 <= w < 2046 * TWO_52
    ensures FloatOf(w + TWO_52) == 2.0 * FloatOf(w)
  {
    hide FloatOf, Magnitude;
    NextParts(w);
    FloatIsMagnitude(w);
    FloatIsMagnitude(w + TWO_52);
    MagnitudeDoubles(w / TWO_52, w % TWO_52);
  }

  lemma LeastMultiples(w: uint64)
    requires w < 2 * TWO_52
    ensures FloatOf(w) == w as real * FloatOf(1)
  {
    hide Pow2;
    assert FloatOf(1) == 1.0 * Pow2(-1074);
    if w < TWO_52 {
      assert w / TWO_52 == 0 && w % TWO_52 == w;
    } else {
      assert w / TWO_52 == 1 && TWO_52 + w % TWO_52 == w;
    }
  }

  lemma TopBitNegates(w: uint64)
    requires w < TWO_63
    ensures FloatOf(w + TWO_63) == -FloatOf(w)
  {
    hide Pow2;
    assert w + TWO_63 == w + 2048 * TWO_52;
    assert (w + TWO_63) % TWO_52 == w % TWO_52;
    assert (w + TWO_63) / TWO_52 == w / TWO_52 + 2048;
  }

  lemma OneIsOne()
    ensures FloatOf(ONE_WORD) == 1.0
  {
    hide Pow2;
    UnitsInLastPlace();
    assert ONE_WORD / TWO_52 == 1023 && ONE_WORD % TWO_52 == 0;
  }

  lemma FloatOfIsBinary64()
    ensures Binary64(FloatOf)
  {
    hide FloatOf;
    OneIsOne();
    forall w: uint64 | w < TWO_63 && Finite(w) ensures Negates(FloatOf, w) { TopBitNegates(w); }
    forall w: uint64 | TWO_52 <= w < 2046 * TWO_52 ensures Doubles(FloatOf, w) { NextExponent(w); }
    forall w: uint64 | w < 2 * TWO_52 ensures Counts(FloatOf, w) { LeastMultiples(w); }
  }

  /** How many times the least positive number a positive word stands for. */
  ghost function Units(w: uint64): real {
    if w < 2 * TWO_52 then w as real else 2.0 * Units(w - TWO_52)
  }

  lemma {:induction false} InUnits(value: uint64 -> real, w: uint64)
    requires Binary64(value) && w < 2047 * TWO_52
    ensures value(w) == Units(w) * value(1)
    decreases w
  {
    hide Finite;
    if w >= 2 * TWO_52 {
      InUnits(value, w - TWO_52);
      assert Doubles(value, w - TWO_52);
    } else {
      assert Counts(value, w);
    }
  }

  lemma SameFactor(a: real, b: real, n: real)
    requires n * a == 1.0 && n * b == 1.0
    ensures a == b
  {
    assert n * (a - b) == n * a - n * b;
  }

  lemma OnlyPositive(value: uint64 -> real, w: uint64)
    requires Binary64(value) && w < 2047 * TWO_52
    ensures value(w) == FloatOf(w)
  {
    hide FloatOf, Units, Binary64;
    FloatOfIsBinary64();
    OneInUnits(value);
    OneInUnits(FloatOf);
    SameFactor(value(1), FloatOf(1), Units(ONE_WORD));
    InUnits(value, w);
    InUnits(FloatOf, w);
  }

  lemma OneInUnits(value: uint64 -> real)
    requires Binary64(value)
    ensures Units(ONE_WORD) * value(1) == 1.0
  {
    hide Units;
    InUnits(value, ONE_WORD);
  }

  lemma Negated(value: uint64 -> real, w: uint64)
    requires Binary64(value) && w < TWO_63 && Finite(w)
    ensures value(w + TWO_63) == -value(w)
  {
    assert Negates(value, w);
  }

  /** The four facts determine the value of every finite word. */
  lemma OnlyBinary64(value: uint64 -> real, w: uint64)
    requires Binary64(value) && Finite(w)
    ensures value(w) == FloatOf(w)
  {
    hide FloatOf, Binary64, Finite;
    var low := w % TWO_63;
    FiniteLow(w);
    OnlyPositive(value, low);
    if w >= TWO_63 {
      assert w == low + TWO_63;
      Negated(value, low);
      TopBitNegates(low);
    }
  }

  lemma FiniteLow(w: uint64)
    requires Finite(w)
    ensures w % TWO_63 < 2047 * TWO_52 && Finite(w % TWO_63)
  {
    var low := w % TWO_63;
    assert w == low || w == low + 2048 * TWO_52;
    assert low / TWO_52 < 2048;
  }
}
