/** The stored form of a digest: a little-endian record inside an envelope that is either
    plain, compressed, or absent in rows written before the envelope existed. */
module DigestCodec {
  import opened Wrappers
  import opened Words

  /** A digest as its float64 words. */
  datatype DigestWords = DigestWords(compression: uint64, min: uint64, max: uint64, count: uint64,
                                     centroids: seq<(uint64, uint64)>)

  datatype Error = InvalidBlob | UnsupportedVersion | Truncated | InvalidEnvelope | CorruptEnvelope

  /** The compressor: whether it could be created, and the two directions. */
  datatype Zstd = Zstd(encoderReady: bool, zip: seq<byte> -> seq<byte>, unzip: seq<byte> -> Option<seq<byte>>)

  /** Decompressing undoes compressing. */
  ghost predicate Inverse(z: Zstd) {
    forall raw :: z.unzip(z.zip(raw)) == Some(raw)
  }

  const MAGIC_T: byte := 84
  const MAGIC_D: byte := 68
  const TYPE_RAW: byte := 85
  const TYPE_ZSTD: byte := 90
  const VERSION: byte := 1
  const HEADER: nat := 39

  const ONE: uint64 := 0x3FF0_0000_0000_0000
  const THIRTY: uint64 := 0x403E_0000_0000_0000
  const POSITIVE_INFINITY: uint64 := 0x7FF0_0000_0000_0000
  const NEGATIVE_INFINITY: uint64 := 0xFFF0_0000_0000_0000

  predicate IsNaN(w: uint64) {
    (w % TWO_63) > POSITIVE_INFINITY
  }

  /** The comparison `f <= 1` on a float64 word. */
  predicate AtMostOne(w: uint64) {
    !IsNaN(w) && (w >= TWO_63 || w <= ONE)
  }

  const FRESH: DigestWords := DigestWords(THIRTY, POSITIVE_INFINITY, NEGATIVE_INFINITY, 0, [])

  /** A useless compression falls back to the default when a digest is read. */
  function Normal(d: DigestWords): DigestWords {
    if AtMostOne(d.compression) then d.(compression := THIRTY) else d
  }

  // ---- the record ------------------------------------------------------------------------------

  function PutWords(ws: seq<uint64>): (bytes: seq<byte>)
    ensures |bytes| == 8 * |ws|
  {
    if ws == [] then [] else PutWords(ws[..|ws| - 1]) + PutWord(ws[|ws| - 1], 8)
  }

  function GetWord64(bytes: seq<byte>): uint64
    requires |bytes| == 8
  {
    WordBound(bytes);
    assert Pow256(8) == TWO_64 by { Pow256Eight(); }
    GetWord(bytes)
  }

  lemma {:induction false} WordBound(bytes: seq<byte>)
    ensures GetWord(bytes) < Pow256(|bytes|)
  {
    if bytes != [] { WordBound(bytes[1..]); }
  }

  lemma Pow256Eight()
    ensures Pow256(4) == TWO_32 && Pow256(8) == TWO_64
  {
    assert Pow256(4) == 256 * (256 * (256 * 256));
    assert Pow256(8) == 256 * (256 * (256 * (256 * Pow256(4))));
  }

  function GetWords(bytes: seq<byte>, n: nat): (ws: seq<uint64>)
    requires 8 * n <= |bytes|
    ensures |ws| == n
  {
    if n == 0 then [] else GetWords(bytes, n - 1) + [GetWord64(bytes[8 * (n - 1)..8 * n])]
  }

  lemma Word64Read(w: uint64)
    ensures GetWord64(PutWord(w, 8)) == w
  {
    Word64RoundTrip(w);
  }

  lemma WordsSplit(ws: seq<uint64>)
    ensures ws == [] ==> PutWords(ws) == []
    ensures ws != [] ==> PutWords(ws) == PutWords(ws[..|ws| - 1]) + PutWord(ws[|ws| - 1], 8)
  {
    hide PutWord;
  }

  lemma NoWords(bytes: seq<byte>)
    ensures GetWords(bytes, 0) == []
  {
  }

  lemma {:induction false} WordsRoundTrip(ws: seq<uint64>, rest: seq<byte>)
    ensures GetWords(PutWords(ws) + rest, |ws|) == ws
  {
    hide PutWord, GetWord64, PutWords, GetWords;
    WordsSplit(ws);
    NoWords(PutWords(ws) + rest);
    if ws != [] {
      var init, last := ws[..|ws| - 1], ws[|ws| - 1];
      var bytes := PutWords(ws) + rest;
      assert bytes == PutWords(init) + (PutWord(last, 8) + rest);
      WordsRoundTrip(init, PutWord(last, 8) + rest);
      Word64Read(last);
      GetWordsPush(bytes, |init|);
      assert bytes[8 * |init|..8 * |init| + 8] == PutWord(last, 8);
    }
  }

  function Flat(cs: seq<(uint64, uint64)>): (ws: seq<uint64>)
    ensures |ws| == 2 * |cs|
  {
    if cs == [] then [] else Flat(cs[..|cs| - 1]) + [cs[|cs| - 1].0, cs[|cs| - 1].1]
  }

  function Pairs(ws: seq<uint64>, n: nat): (cs: seq<(uint64, uint64)>)
    requires |ws| == 2 * n
    ensures |cs| == n
  {
    if n == 0 then [] else Pairs(ws[..2 * (n - 1)], n - 1) + [(ws[2 * n - 2], ws[2 * n - 1])]
  }

  lemma {:induction false} PairsOfFlat(cs: seq<(uint64, uint64)>)
    ensures Pairs(Flat(cs), |cs|) == cs
  {
    if cs != [] {
      PairsOfFlat(cs[..|cs| - 1]);
      assert Flat(cs)[..2 * (|cs| - 1)] == Flat(cs[..|cs| - 1]);
    }
  }

  function Encode(d: DigestWords): seq<byte> {
    [MAGIC_T, MAGIC_D, VERSION] + PutWords([d.compression, d.min, d.max, d.count])
    + PutWord(|d.centroids| % TWO_32, 4) + PutWords(Flat(d.centroids))
  }

  /** Reading the record itself; bytes behind the last centroid are ignored. */
  function DecodeRecord(b: seq<byte>): Result<DigestWords, Error> {
    if |b| < HEADER || b[0] != MAGIC_T || b[1] != MAGIC_D then Err(InvalidBlob)
    else if b[2] != VERSION then Err(UnsupportedVersion)
    else
      var head, n := GetWords(b[3..], 4), GetWord(b[35..39]);
      if HEADER + n * 16 > |b| then Err(Truncated)
      else
        Ok(Normal(DigestWords(head[0], head[1], head[2], head[3], Pairs(GetWords(b[39..], 2 * n), n))))
  }

  lemma CountRoundTrip(n: int)
    requires 0 <= n < TWO_32
    ensures GetWord(PutWord(n, 4)) == n
  {
    Pow256Eight();
    WordRoundTrip(n, 4);
  }

  lemma FlatPrefix(cs: seq<(uint64, uint64)>, n: nat)
    requires n <= |cs|
    ensures Flat(cs)[..2 * n] == Flat(cs[..n])
  {
    if n < |cs| {
      FlatPrefix(cs[..|cs| - 1], n);
      assert cs[..|cs| - 1][..n] == cs[..n];
    } else {
      assert cs[..n] == cs;
    }
  }

  lemma {:induction false} PutWordsPrefix(ws: seq<uint64>, n: nat)
    requires n <= |ws|
    ensures PutWords(ws)[..8 * n] == PutWords(ws[..n])
  {
    if n < |ws| {
      PutWordsPrefix(ws[..|ws| - 1], n);
      assert ws[..|ws| - 1][..n] == ws[..n];
    } else {
      assert ws[..n] == ws;
    }
  }

  lemma EncodedParts(d: DigestWords)
    ensures var b := Encode(d);
            && |b| == HEADER + 16 * |d.centroids|
            && b[0] == MAGIC_T && b[1] == MAGIC_D && b[2] == VERSION
            && b[3..] == PutWords([d.compression, d.min, d.max, d.count])
                         + (PutWord(|d.centroids| % TWO_32, 4) + PutWords(Flat(d.centroids)))
            && b[35..39] == PutWord(|d.centroids| % TWO_32, 4)
            && b[39..] == PutWords(Flat(d.centroids))
  {
    hide PutWord, PutWords, Flat;
  }

  lemma RecordRead(d: DigestWords)
    ensures var n := |d.centroids| % TWO_32;
            DecodeRecord(Encode(d)) == Ok(Normal(d.(centroids := d.centroids[..n])))
  {
    hide Encode, PutWord, GetWord, PutWords, GetWords, Flat, Pairs, Normal;
    var n := |d.centroids| % TWO_32;
    var head := [d.compression, d.min, d.max, d.count];
    var tail := PutWords(Flat(d.centroids));
    EncodedParts(d);
    WordsRoundTrip(head, PutWord(n, 4) + tail);
    CountRoundTrip(n);
    ReadCentroids(d.centroids, n);
  }

  /** The record reads back bit for bit, up to the default compression, exactly when the number
      of centroids fits its 32-bit field. */
  lemma RecordRoundTrip(d: DigestWords)
    ensures DecodeRecord(Encode(d)) == Ok(Normal(d)) <==> |d.centroids| < TWO_32
  {
    hide Encode, DecodeRecord;
    RecordRead(d);
    var n := |d.centroids| % TWO_32;
    assert |d.centroids| < TWO_32 ==> d.centroids[..n] == d.centroids;
    assert |Normal(d.(centroids := d.centroids[..n])).centroids| == n;
  }

  lemma {:induction false} ReadCentroids(cs: seq<(uint64, uint64)>, n: nat)
    requires n <= |cs|
    ensures Pairs(GetWords(PutWords(Flat(cs)), 2 * n), n) == cs[..n]
  {
    hide PutWords, GetWords, Flat, Pairs;
    var all := Flat(cs);
    var some := Flat(cs[..n]);
    FlatPrefix(cs, n);
    PutWordsPrefix(all, 2 * n);
    var rest := PutWords(all)[16 * n..];
    assert PutWords(all) == PutWords(some) + rest;
    WordsRoundTrip(some, rest);
    PairsOfFlat(cs[..n]);
  }

  /** The layout: "TD", version one, five little-endian fields, then two words for every centroid. */
  lemma RecordLayout(d: DigestWords)
    ensures var b := Encode(d);
            && |b| == 39 + 16 * |d.centroids|
            && b[0] == 84 && b[1] == 68 && b[2] == 1
            && b[3..11] == PutWord(d.compression, 8) && b[11..19] == PutWord(d.min, 8)
            && b[19..27] == PutWord(d.max, 8) && b[27..35] == PutWord(d.count, 8)
            && b[35..39] == PutWord(|d.centroids| % TWO_32, 4)
  {
    hide PutWord, PutWords, Flat, Encode;
    EncodedParts(d);
    FourWords(d.compression, d.min, d.max, d.count);
    var b := Encode(d);
    var head := PutWord(d.compression, 8) + PutWord(d.min, 8) + PutWord(d.max, 8) + PutWord(d.count, 8);
    var tail := b[3..];
    assert tail[0..8] == PutWord(d.compression, 8) && tail[8..16] == PutWord(d.min, 8);
    assert tail[16..24] == PutWord(d.max, 8) && tail[24..32] == PutWord(d.count, 8);
    assert b[3..11] == tail[0..8] && b[11..19] == tail[8..16] && b[19..27] == tail[16..24] && b[27..35] == tail[24..32];
  }

  /** A record is refused exactly when it is shorter than its head or does not begin with "TD", when
      its version is not one, or when it ends before the centroids its count field announces. */
  lemma RefusedIff(b: seq<byte>)
    ensures var r := DecodeRecord(b);
            && (r == Err(InvalidBlob) <==> |b| < 39 || b[0] != 84 || b[1] != 68)
            && (r == Err(UnsupportedVersion) <==> |b| >= 39 && b[0] == 84 && b[1] == 68 && b[2] != 1)
            && (r == Err(Truncated) <==> |b| >= 39 && b[0] == 84 && b[1] == 68 && b[2] == 1
                                         && |b| < 39 + 16 * (b[35] as int + 256 * b[36] as int + 0x1_0000 * b[37] as int + 0x100_0000 * b[38] as int))
            && (r.Ok? ==> |r.value.centroids| == b[35] as int + 256 * b[36] as int + 0x1_0000 * b[37] as int + 0x100_0000 * b[38] as int)
  {
    hide GetWords, Pairs, GetWord64;
    if |b| >= 39 {
      FourBytes(b[35..39]);
    }
  }

  lemma FourBytes(c: seq<byte>)
    requires |c| == 4
    ensures GetWord(c) == c[0] as int + 256 * c[1] as int + 0x1_0000 * c[2] as int + 0x100_0000 * c[3] as int
  {
    hide GetWord;
    var c1 := c[1..];
    var c2 := c1[1..];
    var c3 := c2[1..];
    FirstByte(c);
    FirstByte(c1);
    FirstByte(c2);
    FirstByte(c3);
    assert c3[1..] == [];
  }

  lemma FirstByte(c: seq<byte>)
    requires c != []
    ensures GetWord(c) == c[0] + 256 * GetWord(c[1..]) && GetWord([]) == 0
  {
  }

  /** Writes the record field by field into a growing buffer. */
  method WriteRecord(d: DigestWords) returns (buf: seq<byte>)
    ensures buf == Encode(d)
  {
    hide PutWord, PutWords, Flat;
    buf := [MAGIC_T, MAGIC_D, VERSION];
    buf := buf + PutWord(d.compression, 8) + PutWord(d.min, 8) + PutWord(d.max, 8) + PutWord(d.count, 8);
    FourWords(d.compression, d.min, d.max, d.count);
    buf := buf + PutWord(|d.centroids| % TWO_32, 4);
    assert buf == [MAGIC_T, MAGIC_D, VERSION] + PutWords([d.compression, d.min, d.max, d.count]) + PutWord(|d.centroids| % TWO_32, 4);
    var cells := WriteCentroids(d.centroids);
    buf := buf + cells;
  }

  method WriteCentroids(cs: seq<(uint64, uint64)>) returns (buf: seq<byte>)
    ensures buf == PutWords(Flat(cs))
  {
    hide PutWord, PutWords, Flat;
    buf := [];
    NoPairs(cs[..0]);
    var i := 0;
    while i < |cs|
      invariant 0 <= i <= |cs|
      invariant buf == PutWords(Flat(cs[..i]))
    {
      OneMorePair(cs, i);
      buf := buf + PutWord(cs[i].0, 8) + PutWord(cs[i].1, 8);
      i := i + 1;
    }
    assert cs[..i] == cs;
  }

  lemma NoPairs(cs: seq<(uint64, uint64)>)
    requires cs == []
    ensures PutWords(Flat(cs)) == []
  {
  }

  lemma PutWordsPush(ws: seq<uint64>, w: uint64)
    ensures PutWords(ws + [w]) == PutWords(ws) + PutWord(w, 8)
  {
    hide PutWord;
    assert (ws + [w])[..|ws|] == ws;
  }

  lemma FourWords(a: uint64, b: uint64, c: uint64, d: uint64)
    ensures PutWords([a, b, c, d]) == PutWord(a, 8) + PutWord(b, 8) + PutWord(c, 8) + PutWord(d, 8)
  {
    hide PutWord, PutWords;
    assert PutWords([]) == [];
    PutWordsPush([], a);
    assert [] + [a] == [a] && PutWords([a]) == PutWord(a, 8);
    PutWordsPush([a], b);
    assert [a] + [b] == [a, b];
    PutWordsPush([a, b], c);
    assert [a, b] + [c] == [a, b, c];
    PutWordsPush([a, b, c], d);
    assert [a, b, c] + [d] == [a, b, c, d];
  }

  lemma OneMorePair(cs: seq<(uint64, uint64)>, i: nat)
    requires i < |cs|
    ensures PutWords(Flat(cs[..i + 1])) == PutWords(Flat(cs[..i])) + PutWord(cs[i].0, 8) + PutWord(cs[i].1, 8)
  {
    hide PutWord, PutWords;
    var before, a, b := Flat(cs[..i]), cs[i].0, cs[i].1;
    assert cs[..i + 1][..i] == cs[..i];
    assert Flat(cs[..i + 1]) == before + [a] + [b];
    PutWordsPush(before, a);
    PutWordsPush(before + [a], b);
  }

  /** Reads the record back with a moving offset. */
  method ReadRecord(b: seq<byte>) returns (r: Result<DigestWords, Error>)
    ensures r == DecodeRecord(b)
  {
    hide GetWord, GetWord64;
    if |b| < HEADER || b[0] != MAGIC_T || b[1] != MAGIC_D {
      return Err(InvalidBlob);
    }
    if b[2] != VERSION {
      return Err(UnsupportedVersion);
    }
    var d := DigestWords(GetWord64(b[3..11]), GetWord64(b[11..19]), GetWord64(b[19..27]), GetWord64(b[27..35]), []);
    FourRead(b[3..]);
    assert b[3..][0..8] == b[3..11] && b[3..][8..16] == b[11..19] && b[3..][16..24] == b[19..27] && b[3..][24..32] == b[27..35];
    var n := GetWord(b[35..39]);
    var off := HEADER;
    if off + n * 16 > |b| {
      return Err(Truncated);
    }
    var cs: seq<(uint64, uint64)> := [];
    var i := 0;
    while i < n
      invariant 0 <= i <= n && off == HEADER + 16 * i
      invariant cs == Pairs(GetWords(b[39..], 2 * i), i)
    {
      OnePairRead(b[39..], i);
      assert b[39..][16 * i..16 * i + 8] == b[off..off + 8];
      assert b[39..][16 * i + 8..16 * i + 16] == b[off + 8..off + 16];
      cs := cs + [(GetWord64(b[off..off + 8]), GetWord64(b[off + 8..off + 16]))];
      off := off + 16;
      i := i + 1;
    }
    d := d.(centroids := cs);
    if AtMostOne(d.compression) {
      d := d.(compression := THIRTY);
    }
    return Ok(d);
  }

  lemma GetWordsPush(bytes: seq<byte>, n: nat)
    requires 8 * (n + 1) <= |bytes|
    ensures GetWords(bytes, n + 1) == GetWords(bytes, n) + [GetWord64(bytes[8 * n..8 * n + 8])]
  {
    hide GetWord64;
  }

  lemma FourRead(bytes: seq<byte>)
    requires |bytes| >= 32
    ensures GetWords(bytes, 4) ==
            [GetWord64(bytes[0..8]), GetWord64(bytes[8..16]), GetWord64(bytes[16..24]), GetWord64(bytes[24..32])]
  {
    hide GetWord64;
    assert GetWords(bytes, 0) == [];
    GetWordsPush(bytes, 0);
    GetWordsPush(bytes, 1);
    GetWordsPush(bytes, 2);
    GetWordsPush(bytes, 3);
  }

  lemma PairsPush(ws: seq<uint64>, n: nat, a: uint64, b: uint64)
    requires |ws| == 2 * n
    ensures Pairs(ws + [a] + [b], n + 1) == Pairs(ws, n) + [(a, b)]
  {
    assert (ws + [a] + [b])[..2 * n] == ws;
  }

  lemma {:induction false} OnePairRead(bytes: seq<byte>, i: nat)
    requires 16 * (i + 1) <= |bytes|
    ensures Pairs(GetWords(bytes, 2 * (i + 1)), i + 1) ==
            Pairs(GetWords(bytes, 2 * i), i)
            + [(GetWord64(bytes[16 * i..16 * i + 8]), GetWord64(bytes[16 * i + 8..16 * i + 16]))]
  {
    hide GetWord64, GetWords, Pairs;
    var k := 2 * i;
    assert 8 * k == 16 * i;
    GetWordsPush(bytes, k);
    GetWordsPush(bytes, k + 1);
    PairsPush(GetWords(bytes, 2 * i), i, GetWord64(bytes[16 * i..16 * i + 8]), GetWord64(bytes[16 * i + 8..16 * i + 16]));
  }

  // ---- the envelope ---------------------------------------------------------------------------------

  function Wrap(kind: byte, payload: seq<byte>): seq<byte> {
    [MAGIC_T, kind, VERSION] + payload
  }

  /** What is written today; without a compressor the bare record is written. */
  function EncodeStored(z: Zstd, d: DigestWords): seq<byte> {
    var raw := Encode(d);
    if !z.encoderReady then raw
    else if |z.zip(raw)| + 3 < |raw| then Wrap(TYPE_ZSTD, z.zip(raw))
    else Wrap(TYPE_RAW, raw)
  }

  function Unwrap(z: Zstd, blob: seq<byte>): Result<seq<byte>, Error> {
    if |blob| < 3 || blob[0] != MAGIC_T then Ok(blob)
    else if blob[1] == MAGIC_D then Ok(blob)
    else if blob[1] == TYPE_RAW then if blob[2] != VERSION then Err(UnsupportedVersion) else Ok(blob[3..])
    else if blob[1] == TYPE_ZSTD then
      if blob[2] != VERSION then Err(UnsupportedVersion)
      else match z.unzip(blob[3..]) case None => Err(CorruptEnvelope) case Some(raw) => Ok(raw)
    else Err(InvalidEnvelope)
  }

  function Decode(z: Zstd, blob: seq<byte>): Result<DigestWords, Error> {
    if blob == [] then Ok(FRESH)
    else match Unwrap(z, blob) case Err(e) => Err(e) case Ok(raw) => DecodeRecord(raw)
  }

  /** A row from before the envelope. */
  predicate Legacy(blob: seq<byte>) {
    |blob| >= 2 && blob[0] == MAGIC_T && blob[1] == MAGIC_D
  }

  /** Whatever form is chosen, a stored digest reads back as the digest that was written. */
  lemma StoredRoundTrip(z: Zstd, d: DigestWords)
    requires Inverse(z) && |d.centroids| < TWO_32
    ensures Decode(z, EncodeStored(z, d)) == Ok(Normal(d))
    ensures Legacy(EncodeStored(z, d)) <==> !z.encoderReady
  {
    hide Encode, DecodeRecord;
    var raw := Encode(d);
    RecordRoundTrip(d);
    EncodedParts(d);
    assert Wrap(TYPE_RAW, raw)[3..] == raw;
    assert Wrap(TYPE_ZSTD, z.zip(raw))[3..] == z.zip(raw);
  }

  /** A stored blob is one of three forms, told by its second byte: the bare record, the record behind
      "TU" and version one, or its compression behind "TZ" and version one; never the longer form. */
  lemma StoredForm(z: Zstd, d: DigestWords)
    ensures var raw, blob := Encode(d), EncodeStored(z, d);
            && (!z.encoderReady ==> blob == raw)
            && (z.encoderReady && |z.zip(raw)| + 3 < |raw| ==> blob == [84, 90, 1] + z.zip(raw))
            && (z.encoderReady && |z.zip(raw)| + 3 >= |raw| ==> blob == [84, 85, 1] + raw)
  {
    hide Encode;
  }

  /** A blob with a foreign second byte, a foreign version, or a compression that cannot be undone is
      refused; the others are refused exactly when their record is. */
  lemma StoredRefused(z: Zstd, blob: seq<byte>)
    requires |blob| >= 3 && blob[0] == 84
    ensures blob[1] != 68 && blob[1] != 85 && blob[1] != 90 ==> Decode(z, blob) == Err(InvalidEnvelope)
    ensures (blob[1] == 85 || blob[1] == 90) && blob[2] != 1 ==> Decode(z, blob) == Err(UnsupportedVersion)
    ensures blob[1] == 90 && blob[2] == 1 && z.unzip(blob[3..]).None? ==> Decode(z, blob) == Err(CorruptEnvelope)
    ensures blob[1] == 90 && blob[2] == 1 && z.unzip(blob[3..]).Some? ==> Decode(z, blob) == DecodeRecord(z.unzip(blob[3..]).value)
    ensures blob[1] == 85 && blob[2] == 1 ==> Decode(z, blob) == DecodeRecord(blob[3..])
    ensures blob[1] == 68 ==> Decode(z, blob) == DecodeRecord(blob)
  {
    hide DecodeRecord;
  }

  /** A decoded digest never has more centroids than its blob's count field can say. */
  lemma DecodedFits(z: Zstd, blob: seq<byte>)
    ensures Decode(z, blob).Ok? ==> |Decode(z, blob).value.centroids| < TWO_32 && Normal(Decode(z, blob).value) == Decode(z, blob).value
  {
    hide GetWords, Pairs;
    match Unwrap(z, blob)
    case Err(_) =>
    case Ok(raw) =>
      if |raw| >= HEADER {
        WordBound(raw[35..39]);
        Pow256Eight();
        assert DecodeRecord(raw).Ok? ==> |DecodeRecord(raw).value.centroids| == GetWord(raw[35..39]);
      }
  }

  /** Rewriting a row changes its bytes but not the digest it stands for. */
  lemma RewriteKeepsDigest(z: Zstd, blob: seq<byte>)
    requires Inverse(z) && Decode(z, blob).Ok?
    ensures Decode(z, EncodeStored(z, Decode(z, blob).value)) == Decode(z, blob)
    ensures Legacy(EncodeStored(z, Decode(z, blob).value)) <==> !z.encoderReady
  {
    hide Decode, EncodeStored, Legacy;
    DecodedFits(z, blob);
    StoredRoundTrip(z, Decode(z, blob).value);
  }
}
