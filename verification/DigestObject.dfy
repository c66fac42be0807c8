/** From the digest to its stored row and back: the exact digest and the words it is stored as.
    A digest survives the trip whenever each of its reals is the value of some float64 word. */
module DigestObject {
  import opened Wrappers
  import opened Words
  import opened Floats
  import opened Centroids
  import opened TDigest
  import opened DigestCodec

  // ---- words and reals -------------------------------------------------------------------------

  lemma AtMostOneByParts(w: uint64)
    requires Finite(w)
    ensures var exponent := (w / TWO_52) % 2048;
            DigestCodec.AtMostOne(w) <==> w >= TWO_63 || exponent < 1023 || (exponent == 1023 && w % TWO_52 == 0)
  {
  }

  /** The decoder's comparison of words is the comparison of the numbers they stand for. */
  lemma AtMostOneIff(w: uint64)
    requires Finite(w)
    ensures DigestCodec.AtMostOne(w) <==> FloatOf(w) <= 1.0
  {
    hide FloatOf, DigestCodec.AtMostOne, Magnitude;
    var exponent, fraction := (w / TWO_52) % 2048, w % TWO_52;
    FloatIsMagnitude(w);
    AtMostOneByParts(w);
    if exponent < 1023 {
      SmallMagnitude(exponent, fraction);
    } else {
      LargeMagnitude(exponent, fraction);
    }
  }

  /** The words of an empty row are those of a new digest. */
  lemma FreshIsNew()
    ensures FloatOf(FRESH.compression) == DEFAULT_COMPRESSION && FloatOf(FRESH.count) == 0.0
    ensures CellsOf(FRESH.centroids) == []
    ensures LimitOf(FRESH.min, POSITIVE_INFINITY) == Unset && LimitOf(FRESH.max, NEGATIVE_INFINITY) == Unset
  {
    hide Pow2;
    UnitsInLastPlace();
    Pow2Step(-52);
    Pow2Step(-51);
    Pow2Step(-50);
    Pow2Step(-49);
    assert (THIRTY / TWO_52) % 2048 == 1027;
    assert (TWO_52 + THIRTY % TWO_52) as real == 1.875 * (TWO_52 as real);
  }

  /** A record is read field by field; a compression of at most one, in numbers, is read as thirty. */
  lemma FieldsRead(b: seq<byte>)
    requires DecodeRecord(b).Ok?
    ensures |b| >= 39
    ensures var d, w := DecodeRecord(b).value, GetWord64(b[3..11]);
            && (Finite(w) && FloatOf(w) <= 1.0 ==> FloatOf(d.compression) == 30.0)
            && (Finite(w) && FloatOf(w) > 1.0 ==> d.compression == w)
            && d.min == GetWord64(b[11..19]) && d.max == GetWord64(b[19..27]) && d.count == GetWord64(b[27..35])
  {
    hide FloatOf, Finite, GetWord64, GetWords, GetWord, Pairs, DigestCodec.AtMostOne;
    var w, tail := GetWord64(b[3..11]), b[3..];
    FourRead(tail);
    assert tail[0..8] == b[3..11] && tail[8..16] == b[11..19] && tail[16..24] == b[19..27] && tail[24..32] == b[27..35];
    if Finite(w) {
      AtMostOneIff(w);
    }
    FreshIsNew();
  }

  // ---- the words of a digest ---------------------------------------------------------------------

  /** math.Float64bits on the numbers the words can say. */
  ghost predicate Says(bits: real -> uint64, x: real) {
    Finite(bits(x)) && FloatOf(bits(x)) == x
  }

  function LimitBits(bits: real -> uint64, limit: Limit, unset: uint64): uint64 {
    match limit case Unset => unset case At(x) => bits(x)
  }

  function LimitOf(w: uint64, unset: uint64): Limit {
    if w == unset then Unset else At(FloatOf(w))
  }

  function CellsOf(cs: seq<(uint64, uint64)>): (cells: seq<Centroid>)
    ensures |cells| == |cs|
  {
    seq(|cs|, i requires 0 <= i < |cs| => Centroid(FloatOf(cs[i].0), FloatOf(cs[i].1)))
  }

  function BitsOf(bits: real -> uint64, cells: seq<Centroid>): (cs: seq<(uint64, uint64)>)
    ensures |cs| == |cells|
  {
    seq(|cells|, i requires 0 <= i < |cells| => (bits(cells[i].mean), bits(cells[i].weight)))
  }

  /** Every number of the digest is a float64 value. */
  ghost predicate Sayable(bits: real -> uint64, d: TDigest)
    reads d, d.cells
    requires d.used <= d.cells.Length
  {
    && Says(bits, d.compression) && Says(bits, d.count)
    && (d.min.At? ==> Says(bits, d.min.value)) && (d.max.At? ==> Says(bits, d.max.value))
    && AllSaid(bits, d.View())
  }

  ghost predicate AllSaid(bits: real -> uint64, cells: seq<Centroid>) {
    forall i :: 0 <= i < |cells| ==> Says(bits, cells[i].mean) && Says(bits, cells[i].weight)
  }

  /** The digest that the words say. */
  ghost predicate Represents(w: DigestWords, d: TDigest)
    reads d, d.cells
  {
    && d.used <= d.cells.Length && d.View() == CellsOf(w.centroids)
    && d.compression == FloatOf(w.compression) && d.count == FloatOf(w.count)
    && d.min == LimitOf(w.min, POSITIVE_INFINITY) && d.max == LimitOf(w.max, NEGATIVE_INFINITY)
  }

  function WordsOf(bits: real -> uint64, d: TDigest): DigestWords
    reads d, d.cells
    requires d.used <= d.cells.Length
  {
    DigestWords(bits(d.compression), LimitBits(bits, d.min, POSITIVE_INFINITY),
                LimitBits(bits, d.max, NEGATIVE_INFINITY), bits(d.count), BitsOf(bits, d.cells[..d.used]))
  }

  lemma InfinitiesAreNotFinite()
    ensures !Finite(POSITIVE_INFINITY) && !Finite(NEGATIVE_INFINITY)
  {
  }

  lemma SayableRepresented(bits: real -> uint64, d: TDigest)
    requires d.Valid() && Sayable(bits, d)
    ensures Represents(WordsOf(bits, d), d) && Normal(WordsOf(bits, d)) == WordsOf(bits, d)
  {
    hide FloatOf, Finite, DigestCodec.AtMostOne, Summarises, Weight, Sorted;
    InfinitiesAreNotFinite();
    AtMostOneIff(bits(d.compression));
    var cells := CellsOf(BitsOf(bits, d.View()));
    forall i | 0 <= i < |cells| ensures cells[i] == d.View()[i] {
    }
  }

  // ---- storing and reading -----------------------------------------------------------------------

  /** Condenses the digest and writes its row. */
  method EncodeDigest(z: Zstd, bits: real -> uint64, d: TDigest) returns (blob: seq<byte>)
    requires d.Valid()
    modifies d`used, d`processed, d.cells
    ensures d.Valid() && d.processed && (old(d.processed) ==> d.View() == old(d.View()))
    ensures blob == EncodeStored(z, WordsOf(bits, d))
  {
    hide Summarises, Weight, Sorted, EncodeStored;
    var _, _ := d.Process();
    var cs: seq<(uint64, uint64)> := [];
    var i := 0;
    while i < d.used
      invariant 0 <= i <= d.used && cs == BitsOf(bits, d.cells[..i])
    {
      cs := cs + [(bits(d.cells[i].mean), bits(d.cells[i].weight))];
      i := i + 1;
    }
    return EncodeStored(z, DigestWords(bits(d.compression), LimitBits(bits, d.min, POSITIVE_INFINITY),
                                       LimitBits(bits, d.max, NEGATIVE_INFINITY), bits(d.count), cs));
  }

  method ReadStored(z: Zstd, blob: seq<byte>) returns (r: Result<DigestWords, Error>)
    ensures r == Decode(z, blob)
  {
    hide DecodeRecord, Unwrap;
    if blob == [] {
      return Ok(FRESH);
    }
    match Unwrap(z, blob) {
      case Err(e) => return Err(e);
      case Ok(raw) => r := ReadRecord(raw);
    }
  }

  method CellsFrom(cs: seq<(uint64, uint64)>) returns (cells: array<Centroid>)
    ensures fresh(cells) && cells[..] == CellsOf(cs)
  {
    hide FloatOf;
    cells := new Centroid[|cs|](_ => Centroid(0.0, 1.0));
    var i := 0;
    while i < |cs|
      invariant 0 <= i <= |cs| == cells.Length
      invariant forall j :: 0 <= j < i ==> cells[j] == CellsOf(cs)[j]
    {
      cells[i] := Centroid(FloatOf(cs[i].0), FloatOf(cs[i].1));
      i := i + 1;
    }
  }

  /** Builds the digest a row says. It stands for `seen` if a processed digest of the same words does. */
  method DecodeDigest(z: Zstd, blob: seq<byte>, ghost seen: seq<Centroid>) returns (r: Result<TDigest, Error>)
    ensures match Decode(z, blob)
            case Err(e) => r == Err(e)
            case Ok(w) =>
              && r.Ok? && fresh(r.value) && fresh(r.value.cells)
              && r.value.processed && r.value.seen == seen && Represents(w, r.value)
  {
    hide FloatOf, Decode, CellsOf, TDigest.Valid;
    var words := ReadStored(z, blob);
    if words.Err? {
      return Err(words.error);
    }
    var w := words.value;
    var d := new TDigest(30.0);
    d.compression, d.count := FloatOf(w.compression), FloatOf(w.count);
    d.min, d.max := LimitOf(w.min, POSITIVE_INFINITY), LimitOf(w.max, NEGATIVE_INFINITY);
    d.processed, d.seen := true, seen;
    d.cells := CellsFrom(w.centroids);
    d.used := d.cells.Length;
    return Ok(d);
  }

  /** A processed digest with the words of `d` stands for what `d` stands for. */
  lemma SameWordsSameDigest(w: DigestWords, d: TDigest, e: TDigest)
    requires d.Valid() && d.processed && Represents(w, d)
    requires e.processed && e.seen == d.seen && Represents(w, e)
    ensures e.Valid() && e.View() == d.View() && e.count == d.count && e.compression == d.compression
    ensures e.min == d.min && e.max == d.max
  {
    hide FloatOf, Summarises, Weight, Sorted;
  }

  /** A digest whose numbers are float64 values is read back from its row as the condensed digest it
      was stored as: the same clusters, totals and extremes, standing for the same observations. */
  method ReadBack(z: Zstd, bits: real -> uint64, d: TDigest) returns (r: Result<TDigest, Error>)
    requires d.Valid() && Inverse(z)
    modifies d`used, d`processed, d.cells
    ensures d.Valid() && d.processed && (old(d.processed) ==> d.View() == old(d.View()))
    ensures Sayable(bits, d) && d.used < TWO_32 ==>
              && r.Ok? && fresh(r.value) && fresh(r.value.cells)
              && r.value.Valid() && r.value.processed && r.value.seen == d.seen && r.value.View() == d.View()
              && r.value.count == d.count && r.value.min == d.min && r.value.max == d.max
              && r.value.compression == d.compression
  {
    hide Summarises, Weight, Sorted, Says, FloatOf, EncodeStored, Decode;
    var blob := EncodeDigest(z, bits, d);
    ghost var words := WordsOf(bits, d);
    r := DecodeDigest(z, blob, d.seen);
    if Sayable(bits, d) && d.used < TWO_32 {
      SayableRepresented(bits, d);
      StoredRoundTrip(z, words);
      SameWordsSameDigest(words, d, r.value);
    }
  }

  /** Two estimates read off the row of a condensed digest are those of the digest in memory, in
      order and between its extremes. */
  method StoredQuantiles(z: Zstd, bits: real -> uint64, d: TDigest, p: real, q: real)
    returns (lo: Option<real>, hi: Option<real>)
    requires d.Valid() && d.processed && Sayable(bits, d) && d.used < TWO_32
    requires Inverse(z) && p <= q
    modifies d`used, d`processed, d.cells
    ensures d.Valid() && d.processed && d.View() == old(d.View())
    ensures d.seen == [] ==> lo == None && hi == None
    ensures d.seen != [] ==>
              && Ready(d.View(), d.count, d.min.value, d.max.value)
              && lo == Some(QuantileOf(d.View(), d.count, d.min.value, d.max.value, p))
              && hi == Some(QuantileOf(d.View(), d.count, d.min.value, d.max.value, q))
              && d.min.value <= lo.value <= hi.value <= d.max.value
  {
    hide Summarises, Weight, Sorted, Says, AllSaid, Ready, QuantileOf, Positive;
    var r := ReadBack(z, bits, d);
    lo := r.value.Quantile(p);
    hi := r.value.Quantile(q);
    SeenNothing(d.View(), d.seen, d.min, d.max);
    if d.seen != [] {
      QuantileMonotone(d.View(), d.count, d.min.value, d.max.value, p, q);
    }
  }
}
