/** The byte form of a sample list: the first timestamp as a zigzag varint, later ones as
    wrapped differences, values as eight little-endian bytes, label ids as varints. */
module RawCodec {
  import opened Words
  import opened Timeline

  type RawSample = Sample<uint32>

  function LastStamp(s: seq<RawSample>): int64 {
    if s == [] then 0 else s[|s| - 1].timestamp
  }

  function EncodeStamp(earlier: seq<RawSample>, stamp: int64): seq<byte> {
    if earlier == [] then PutVarint(stamp) else PutUvarint(ToUint64(stamp - LastStamp(earlier)))
  }

  function EncodeBody(sample: RawSample): seq<byte> {
    PutWord(sample.value, 8) + PutUvarint(sample.labels)
  }

  function Encode(s: seq<RawSample>): seq<byte> {
    if s == [] then []
    else
      var earlier, last := s[..|s| - 1], s[|s| - 1];
      Encode(earlier) + EncodeStamp(earlier, last.timestamp) + EncodeBody(last)
  }

  /** Reads the timestamp at the front of `buf`: the stamp and the bytes used. */
  function DecodeStamp(first: bool, previous: int64, buf: seq<byte>): (int64, int) {
    if first then
      var (v, size) := Varint(buf);
      (ToInt64(v), size)
    else
      var (delta, size) := Uvarint(buf);
      (ToInt64(previous + ToInt64(delta)), size)
  }

  datatype Body = Missing | Body(value: uint64, labels: uint32, size: nat)

  /** Reads eight value bytes and a label id from the front of `buf`. */
  function DecodeBody(buf: seq<byte>): Body {
    if |buf| < 8 then Missing
    else
      var (labels, size) := Uvarint(buf[8..]);
      if size < 0 then Missing else Body(GetWord(buf[..8]) % TWO_64, labels % TWO_32, 8 + size)
  }

  lemma StampRoundTrip(earlier: seq<RawSample>, stamp: int64, rest: seq<byte>)
    ensures DecodeStamp(earlier == [], LastStamp(earlier), EncodeStamp(earlier, stamp) + rest)
         == (stamp, |EncodeStamp(earlier, stamp)|)
  {
    hide PutUvarint, UvarintFrom, Zigzag, Unzigzag;
    if earlier == [] {
      VarintRoundTrip(stamp, rest);
    } else {
      UvarintRoundTrip(ToUint64(stamp - LastStamp(earlier)), rest);
      DeltaUndone(LastStamp(earlier), stamp);
    }
  }

  lemma BodyRoundTrip(sample: RawSample, rest: seq<byte>)
    ensures DecodeBody(EncodeBody(sample) + rest) == Body(sample.value, sample.labels, |EncodeBody(sample)|)
  {
    hide PutUvarint, PutWord, GetWord, UvarintFrom;
    var buf := EncodeBody(sample) + rest;
    Word64RoundTrip(sample.value);
    assert buf[..8] == PutWord(sample.value, 8);
    assert buf[8..] == PutUvarint(sample.labels) + rest;
    UvarintRoundTrip(sample.labels, rest);
  }

  lemma {:induction false} EncodePrefix(s: seq<RawSample>, i: nat)
    requires i <= |s|
    ensures Encode(s[..i]) <= Encode(s)
  {
    if i == |s| {
      assert s[..i] == s;
    } else {
      EncodePrefix(s[..|s| - 1], i);
      assert s[..|s| - 1][..i] == s[..i];
    }
  }

  lemma DropPrefix<T>(a: seq<T>, b: seq<T>)
    ensures (a + b)[|a|..] == b
  {
  }

  lemma EncodeLast(s: seq<RawSample>, i: nat)
    requires i < |s|
    ensures Encode(s[..i + 1]) == Encode(s[..i]) + EncodeStamp(s[..i], s[i].timestamp) + EncodeBody(s[i])
  {
    assert s[..i + 1][..i] == s[..i];
  }

  /** The bytes of the samples from index `i` on. */
  ghost function Tail(s: seq<RawSample>, i: nat): seq<byte>
    requires i <= |s|
  {
    EncodePrefix(s, i);
    Encode(s)[|Encode(s[..i])|..]
  }

  lemma TailStart(s: seq<RawSample>)
    ensures Tail(s, 0) == Encode(s)
  {
    assert Encode(s[..0]) == [];
  }

  /** What the decoder sees at sample `i`: that sample's bytes and then the later ones. */
  lemma EncodeAt(s: seq<RawSample>, i: nat)
    requires i < |s|
    ensures Tail(s, i) == EncodeStamp(s[..i], s[i].timestamp) + (EncodeBody(s[i]) + Tail(s, i + 1))
    ensures |Encode(s[..i + 1])| == |Encode(s[..i])| + |EncodeStamp(s[..i], s[i].timestamp)| + |EncodeBody(s[i])|
  {
    EncodePrefix(s, i + 1);
    EncodeLast(s, i);
    Reassociate(Encode(s), Encode(s[..i]), EncodeStamp(s[..i], s[i].timestamp), EncodeBody(s[i]),
                Encode(s[..i + 1]), Tail(s, i + 1));
  }

  lemma Reassociate<T>(all: seq<T>, a: seq<T>, b: seq<T>, c: seq<T>, upTo: seq<T>, rest: seq<T>)
    requires upTo == a + b + c && upTo <= all && rest == all[|upTo|..]
    ensures |a| <= |all| && all[|a|..] == b + (c + rest)
  {
    assert all == upTo + rest;
    assert all == a + (b + (c + rest));
    DropPrefix(a, b + (c + rest));
  }

  // ---- round trip on whole buffers ----------------------------------------------------

  /** Decodes `count` samples after `earlier`, stopping where a byte is missing. */
  function Decode(buf: seq<byte>, earlier: seq<RawSample>, count: nat): seq<RawSample>
    decreases count
  {
    if count == 0 then earlier
    else
      var (stamp, size) := DecodeStamp(earlier == [], LastStamp(earlier), buf);
      if !(0 <= size <= |buf|) then earlier else DecodeAfterStamp(buf[size..], stamp, earlier, count)
  }

  function DecodeAfterStamp(buf: seq<byte>, stamp: int64, earlier: seq<RawSample>, count: nat): seq<RawSample>
    requires count > 0
    decreases count, 0
  {
    var body := DecodeBody(buf);
    if body.Missing? || body.size > |buf| then earlier
    else Decode(buf[body.size..], earlier + [Sample(stamp, body.value, body.labels)], count - 1)
  }

  lemma DecodeBodyStep(buf: seq<byte>, earlier: seq<RawSample>, sample: RawSample, rest: seq<byte>, count: nat)
    requires count > 0 && buf == EncodeBody(sample) + rest
    ensures DecodeAfterStamp(buf, sample.timestamp, earlier, count) == Decode(rest, earlier + [sample], count - 1)
  {
    BodyRoundTrip(sample, rest);
    DropPrefix(EncodeBody(sample), rest);
  }

  lemma DecodeStep(buf: seq<byte>, earlier: seq<RawSample>, sample: RawSample, rest: seq<byte>, count: nat)
    requires count > 0
    requires buf == EncodeStamp(earlier, sample.timestamp) + (EncodeBody(sample) + rest)
    ensures Decode(buf, earlier, count) == Decode(rest, earlier + [sample], count - 1)
  {
    StampRoundTrip(earlier, sample.timestamp, EncodeBody(sample) + rest);
    DropPrefix(EncodeStamp(earlier, sample.timestamp), EncodeBody(sample) + rest);
    DecodeBodyStep(EncodeBody(sample) + rest, earlier, sample, rest, count);
  }

  ghost predicate Decodes(buf: seq<byte>, earlier: seq<RawSample>, count: nat, result: seq<RawSample>) {
    Decode(buf, earlier, count) == result
  }

  /** A count beyond what the buffer holds stops at its end. */
  lemma DecodeNothing(earlier: seq<RawSample>, count: nat)
    ensures Decode([], earlier, count) == earlier
  {
  }

  lemma DecodeNext(s: seq<RawSample>, i: nat, extra: nat, result: seq<RawSample>)
    requires i < |s| && Decodes(Tail(s, i + 1), s[..i + 1], |s| - i - 1 + extra, result)
    ensures Decodes(Tail(s, i), s[..i], |s| - i + extra, result)
  {
    hide EncodeStamp, EncodeBody, DecodeStamp, DecodeBody, Encode;
    EncodeAt(s, i);
    assert s[..i] + [s[i]] == s[..i + 1];
    DecodeStep(Tail(s, i), s[..i], s[i], Tail(s, i + 1), |s| - i + extra);
  }

  lemma {:induction false} DecodeFrom(s: seq<RawSample>, i: nat, extra: nat)
    requires i <= |s|
    ensures Decodes(Tail(s, i), s[..i], |s| - i + extra, s)
    decreases |s| - i
  {
    hide DecodeStamp, DecodeBody, Encode;
    if i == |s| {
      assert s[..i] == s && Tail(s, i) == [];
      DecodeNothing(s, extra);
    } else {
      DecodeFrom(s, i + 1, extra);
      DecodeNext(s, i, extra, s);
    }
  }

  /** Every sample list, in any order and with any 64-bit values, survives the codec bit for bit,
      even where more samples are asked for than the buffer holds. */
  lemma {:induction false} RoundTrip(s: seq<RawSample>, extra: nat)
    ensures Decode(Encode(s), [], |s| + extra) == s
  {
    hide Encode, Decode, Tail;
    DecodeFrom(s, 0, extra);
    assert s[..0] == [];
    TailStart(s);
  }

  /** So no two sample lists share an encoding. */
  lemma {:induction false} EncodeInjective(s: seq<RawSample>, t: seq<RawSample>)
    requires Encode(s) == Encode(t)
    ensures s == t
  {
    hide Encode, Decode;
    RoundTrip(s, |t|);
    RoundTrip(t, |s|);
    assert |s| + |t| == |t| + |s|;
  }
}
