/** Machine words, the exact value of a float64 word, and the byte encodings of
    encoding/binary: little-endian words, base-128 varints and zigzag varints. */
module Words {

  const TWO_63: int := 0x8000_0000_0000_0000
  const TWO_64: int := 0x1_0000_0000_0000_0000
  const TWO_32: int := 0x1_0000_0000
  const TWO_52: int := 0x10_0000_0000_0000

  type byte = x: int | 0 <= x < 256
  type uint32 = x: int | 0 <= x < TWO_32
  type uint64 = x: int | 0 <= x < TWO_64
  type int64 = x: int | -TWO_63 <= x < TWO_63

  /** uint64(x) and int64(x) in Go: reduction modulo 2^64. */
  function ToUint64(x: int): uint64 {
    x % TWO_64
  }

  function ToInt64(x: int): int64 {
    var u := x % TWO_64;
    if u < TWO_63 then u else u - TWO_64
  }

  /** A stored difference undoes itself even when the subtraction wrapped around. */
  lemma DeltaUndone(previous: int64, stamp: int64)
    ensures ToInt64(previous + ToInt64(ToUint64(stamp - previous))) == stamp
  {
  }

  // ---- float64 -----------------------------------------------------------------------

  function Pow2(e: int): (r: real)
    ensures r > 0.0
    decreases if e < 0 then -e else e
  {
    if e == 0 then 1.0 else if e > 0 then 2.0 * Pow2(e - 1) else Pow2(e + 1) / 2.0
  }

  /** The real number a finite IEEE-754 double stands for (math.Float64frombits). */
  function FloatOf(word: uint64): real {
    var exponent := (word / TWO_52) % 2048;
    var fraction := word % TWO_52;
    var magnitude := if exponent == 0 then (fraction as real) * Pow2(-1074)
                     else ((TWO_52 + fraction) as real) * Pow2(exponent - 1075);
    if word >= TWO_63 then -magnitude else magnitude
  }

  // ---- little-endian words ---------------------------------------------------------------

  function PutWord(w: int, n: nat): (bytes: seq<byte>)
    requires w >= 0
    ensures |bytes| == n
  {
    if n == 0 then [] else [w % 256] + PutWord(w / 256, n - 1)
  }

  function GetWord(bytes: seq<byte>): nat {
    if bytes == [] then 0 else bytes[0] + 256 * GetWord(bytes[1..])
  }

  function Pow256(n: nat): (r: int)
    ensures r > 0
  {
    if n == 0 then 1 else 256 * Pow256(n - 1)
  }

  lemma {:induction false} WordRoundTrip(w: int, n: nat)
    requires 0 <= w < Pow256(n)
    ensures GetWord(PutWord(w, n)) == w
  {
    if n == 0 {
    } else {
      WordRoundTrip(w / 256, n - 1);
      assert PutWord(w, n)[1..] == PutWord(w / 256, n - 1);
    }
  }

  /** Byte `i` of a little-endian word is its `i`-th digit to the base 256. */
  lemma {:induction false} WordDigits(w: int, n: nat, i: nat)
    requires w >= 0 && i < n
    ensures PutWord(w, n)[i] == (w / Pow256(i)) % 256
  {
    if i > 0 {
      WordDigits(w / 256, n - 1, i - 1);
      DigitShift(w, Pow256(i - 1));
    }
  }

  lemma DigitShift(w: int, p: int)
    requires w >= 0 && p > 0
    ensures w / 256 / p == w / (256 * p)
  {
    var q := w / (256 * p);
    var r := w - q * (256 * p);
    assert 0 <= r < 256 * p;
    assert w == (q * p) * 256 + r;
    assert w / 256 == q * p + r / 256;
    assert 0 <= r / 256 < p;
    QuotientOf(q, p, r / 256);
  }

  lemma QuotientOf(q: int, p: int, r: int)
    requires p > 0 && 0 <= r < p
    ensures (q * p + r) / p == q
  {
    var n := q * p + r;
    var x, y := n / p, n % p;
    assert x * p + y == n;
    var k := x - q;
    assert k * p == x * p - q * p;
    SmallMultiple(k, p);
  }

  lemma SmallMultiple(k: int, p: int)
    requires p > 0 && -p < k * p < p
    ensures k == 0
  {
    if k > 0 {
      MultipleLarge(k, p);
    } else if k < 0 {
      MinusTimes(k, p);
      MultipleLarge(-k, p);
    }
  }

  lemma MinusTimes(k: int, p: int)
    ensures (-k) * p == -(k * p)
  {
  }

  lemma MultipleLarge(k: int, p: int)
    requires p > 0 && k > 0
    ensures k * p >= p
  {
    var j := k - 1;
    assert j * p >= 0;
    assert k * p == j * p + p;
  }

  lemma Word64RoundTrip(w: uint64)
    ensures GetWord(PutWord(w, 8)) == w
  {
    assert Pow256(4) == 256 * (256 * (256 * 256));
    assert Pow256(8) == 256 * (256 * (256 * (256 * Pow256(4))));
    WordRoundTrip(w, 8);
  }

  // ---- varints ------------------------------------------------------------------------------

  const MAX_VARINT_LEN := 10

  function PutUvarint(x: uint64): (bytes: seq<byte>)
    ensures bytes != []
  {
    if x < 128 then [x] else [128 + x % 128] + PutUvarint(x / 128)
  }

  function Pow128(n: nat): (r: int)
    ensures r > 0
  {
    if n == 0 then 1 else 128 * Pow128(n - 1)
  }

  /** Reads byte `i` of a varint with `x` accumulated so far; the size is 0 for a short
      buffer and negative for a value that overflows 64 bits. */
  function UvarintFrom(buf: seq<byte>, i: nat, x: int): (int, int) {
    if buf == [] then (0, 0)
    else if i == MAX_VARINT_LEN then (0, -(i + 1))
    else
      var b := buf[0];
      if b < 128 then
        if i == MAX_VARINT_LEN - 1 && b > 1 then (0, -(i + 1)) else (x + b * Pow128(i), i + 1)
      else UvarintFrom(buf[1..], i + 1, x + (b - 128) * Pow128(i))
  }

  function Uvarint(buf: seq<byte>): (int, int) {
    UvarintFrom(buf, 0, 0)
  }

  lemma Pow128Nine()
    ensures Pow128(9) == TWO_63
  {
    assert Pow128(3) == 128 * (128 * 128);
    assert Pow128(6) == 128 * (128 * (128 * Pow128(3)));
    assert Pow128(9) == 128 * (128 * (128 * Pow128(6)));
  }

  lemma SplitSeven(v: int, p: int)
    requires v >= 0 && p > 0
    ensures (v / 128) * (128 * p) + (v % 128) * p == v * p
    ensures 0 <= (v % 128) * p && (v / 128) * (128 * p) <= v * p
  {
    assert v == (v / 128) * 128 + v % 128;
    assert (v / 128) * (128 * p) == ((v / 128) * 128) * p;
  }

  /** A value whose scaled form fits 64 bits has at most one bit left for the tenth byte. */
  lemma TenthByte(v: int, i: nat)
    requires v >= 0 && i <= 9 && v * Pow128(i) < TWO_64
    ensures i == 9 ==> v <= 1
  {
    Pow128Nine();
    if i == 9 {
      assert v * TWO_63 < 2 * TWO_63;
    }
  }

  lemma {:induction false} UvarintRoundTripFrom(v: uint64, i: nat, x: int, rest: seq<byte>)
    requires i <= 9 && v * Pow128(i) < TWO_64
    ensures UvarintFrom(PutUvarint(v) + rest, i, x) == (x + v * Pow128(i), i + |PutUvarint(v)|)
    decreases v
  {
    TenthByte(v, i);
    if v >= 128 {
      SplitSeven(v, Pow128(i));
      assert Pow128(i + 1) == 128 * Pow128(i);
      assert (PutUvarint(v) + rest)[1..] == PutUvarint(v / 128) + rest;
      UvarintRoundTripFrom(v / 128, i + 1, x + (v % 128) * Pow128(i), rest);
    }
  }

  lemma UvarintRoundTrip(v: uint64, rest: seq<byte>)
    ensures Uvarint(PutUvarint(v) + rest) == (v, |PutUvarint(v)|)
  {
    UvarintRoundTripFrom(v, 0, 0, rest);
  }

  /** Zigzag: non-negative numbers become even words, negative ones odd words. */
  function Zigzag(x: int64): uint64 {
    if x >= 0 then 2 * x else -2 * x - 1
  }

  function Unzigzag(u: int): int {
    if u % 2 == 0 then u / 2 else -(u / 2) - 1
  }

  function PutVarint(x: int64): seq<byte> {
    PutUvarint(Zigzag(x))
  }

  function Varint(buf: seq<byte>): (int, int) {
    var (u, size) := Uvarint(buf);
    (Unzigzag(u), size)
  }

  lemma VarintRoundTrip(v: int64, rest: seq<byte>)
    ensures Varint(PutVarint(v) + rest) == (v, |PutVarint(v)|)
  {
    UvarintRoundTrip(Zigzag(v), rest);
  }
}
