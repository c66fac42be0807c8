/** The encoded half of a series: an append-only byte buffer, its decoder, and the
    rewrites that replace, merge and prune samples inside it. */
module RawSamples {
  import opened Words
  import opened Timeline
  import opened RawCodec

  /** Walks the samples of one buffer from the front. */
  class RawSampleDecoder {
    const data: seq<byte>
    const count: int
    var offset: int
    var index: int
    var previous: int64
    ghost const contents: seq<RawSample>

    ghost predicate Valid()
      reads this
    {
      && data == Encode(contents) && count == |contents|
      && 0 <= index <= count
      && 0 <= offset <= |data| && data[offset..] == Tail(contents, index)
      && previous == LastStamp(contents[..index])
    }

    constructor (samples: CompressedRawSamples)
      requires samples.Valid()
      ensures Valid() && contents == samples.contents && index == 0
    {
      data := samples.data;
      count := samples.count;
      offset, index, previous := 0, 0, 0;
      contents := samples.contents;
      new;
      TailStart(contents);
      assert data[0..] == data;
    }

    method Next() returns (sample: RawSample, more: bool)
      requires Valid()
      modifies this
      ensures Valid()
      ensures more <==> old(index) < |contents|
      ensures more ==> index == old(index) + 1 && sample == contents[old(index)]
      ensures !more ==> index == old(index)
    {
      hide Encode, Tail, AfterStamp;
      if index == count {
        return Sample(0, 0, 0), false;
      }
      var timestamp := ReadStamp();
      var value, labelID := ReadBody();
      assert contents[..index + 1][..index] == contents[..index];
      index := index + 1;
      previous := timestamp;
      return Sample(timestamp, value, labelID), true;
    }

    /** The first timestamp is stored whole, every later one as a difference. */
    method ReadStamp() returns (timestamp: int64)
      requires Valid() && index < count
      modifies this`offset
      ensures timestamp == contents[index].timestamp
      ensures 0 <= offset <= |data| && data[offset..] == AfterStamp(contents, index)
    {
      hide Encode, Tail, AfterStamp, Varint, Uvarint;
      NextStamp(contents, index);
      if index == 0 {
        var (value, size) := Varint(data[offset..]);
        DropDrop(data, offset, size);
        offset := offset + size;
        return ToInt64(value);
      } else {
        var (delta, size) := Uvarint(data[offset..]);
        DropDrop(data, offset, size);
        offset := offset + size;
        return ToInt64(previous + ToInt64(delta));
      }
    }

    method ReadBody() returns (value: uint64, labelID: uint32)
      requires count == |contents| && 0 <= index < count
      requires 0 <= offset <= |data| && data[offset..] == AfterStamp(contents, index)
      modifies this`offset
      ensures value == contents[index].value && labelID == contents[index].labels
      ensures 0 <= offset <= |data| && data[offset..] == Tail(contents, index + 1)
    {
      hide Encode, Tail, AfterStamp, Uvarint, GetWord;
      NextBody(contents, index);
      DropDrop(data, offset, 8);
      value := GetWord(data[offset..][..8]) % TWO_64;
      offset := offset + 8;
      var (id, size) := Uvarint(data[offset..]);
      DropDrop(data, offset, size);
      offset := offset + size;
      labelID := id % TWO_32;
    }
  }

  lemma DropDrop<T>(s: seq<T>, a: int, b: int)
    requires 0 <= a <= |s| && 0 <= b <= |s| - a
    ensures s[a..][b..] == s[a + b..]
  {
  }

  /** What is left of the buffer once the timestamp of sample `i` has been read. */
  ghost function AfterStamp(s: seq<RawSample>, i: nat): seq<byte>
    requires i < |s|
  {
    EncodeBody(s[i]) + Tail(s, i + 1)
  }

  lemma NextStamp(s: seq<RawSample>, i: nat)
    requires i < |s|
    ensures s[..i] == [] <==> i == 0
    ensures var (stamp, size) := DecodeStamp(i == 0, LastStamp(s[..i]), Tail(s, i));
            && stamp == s[i].timestamp && 0 <= size <= |Tail(s, i)|
            && Tail(s, i)[size..] == AfterStamp(s, i)
  {
    hide Encode, EncodeBody, DecodeStamp, EncodeStamp;
    EncodeAt(s, i);
    StampRoundTrip(s[..i], s[i].timestamp, AfterStamp(s, i));
    DropPrefix(EncodeStamp(s[..i], s[i].timestamp), AfterStamp(s, i));
  }

  lemma NextBody(s: seq<RawSample>, i: nat)
    requires i < |s|
    ensures var buf := AfterStamp(s, i);
            && |buf| >= 8 && GetWord(buf[..8]) == s[i].value
            && var (id, size) := Uvarint(buf[8..]);
               id == s[i].labels && 0 <= size <= |buf| - 8 && buf[8..][size..] == Tail(s, i + 1)
  {
    hide Encode, PutWord, GetWord, PutUvarint, UvarintFrom;
    var rest := Tail(s, i + 1);
    Word64RoundTrip(s[i].value);
    UvarintRoundTrip(s[i].labels, rest);
    assert AfterStamp(s, i) == PutWord(s[i].value, 8) + (PutUvarint(s[i].labels) + rest);
    DropPrefix(PutWord(s[i].value, 8), PutUvarint(s[i].labels) + rest);
    DropPrefix(PutUvarint(s[i].labels), rest);
  }

  lemma NothingUpserted(contents: seq<RawSample>)
    ensures UpsertAll(contents, []) == contents
  {
  }

  lemma OneMoreSample(before: seq<RawSample>, samples: seq<RawSample>, i: int)
    requires 0 <= i < |samples|
    ensures before + samples[..i] + [samples[i]] == before + samples[..i + 1]
  {
  }

  class CompressedRawSamples {
    var data: seq<byte>
    var count: int
    var lastStamp: int64
    ghost var contents: seq<RawSample>

    ghost predicate Valid()
      reads this
    {
      data == Encode(contents) && count == |contents| && lastStamp == LastStamp(contents)
    }

    constructor ()
      ensures Valid() && contents == []
    {
      data, count, lastStamp, contents := [], 0, 0, [];
    }

    method AppendSample(sample: RawSample)
      requires Valid()
      modifies this
      ensures Valid() && contents == old(contents) + [sample]
    {
      assert (contents + [sample])[..|contents|] == contents;
      if count == 0 {
        data := data + PutVarint(sample.timestamp);
      } else {
        data := data + PutUvarint(ToUint64(sample.timestamp - lastStamp));
      }
      data := data + PutWord(sample.value, 8) + PutUvarint(sample.labels);
      count := count + 1;
      lastStamp := sample.timestamp;
      contents := contents + [sample];
      AppendEncoded(old(contents), sample);
    }

    method FirstStamp() returns (stamp: int)
      requires Valid()
      ensures contents != [] ==> stamp == contents[0].timestamp
      ensures contents == [] ==> stamp == 0
    {
      if contents != [] {
        NextStamp(contents, 0);
        TailStart(contents);
      }
      var (value, _) := Varint(data);
      return ToInt64(value);
    }

    /** Newer samples win; overlapping input forces a rewrite of the whole buffer. */
    method Append(samples: seq<RawSample>)
      requires Valid() && Ascending(contents) && Ascending(samples)
      modifies this
      ensures Valid() && contents == UpsertAll(old(contents), samples)
    {
      hide Encode, UpsertAll;
      if |samples| == 0 {
        NothingUpserted(contents);
        return;
      }
      if count > 0 && samples[0].timestamp <= lastStamp {
        MergeIn(samples);
        return;
      }
      ghost var before := contents;
      assert before + samples[..0] == before;
      var i := 0;
      while i < |samples|
        invariant 0 <= i <= |samples|
        invariant Valid() && contents == before + samples[..i]
      {
        OneMoreSample(before, samples, i);
        AppendSample(samples[i]);
        i := i + 1;
      }
      assert samples[..i] == samples;
      AppendIsUpsertAll(before, samples);
    }

    method MergeIn(samples: seq<RawSample>)
      requires Valid() && Ascending(contents) && Ascending(samples)
      modifies this
      ensures Valid() && contents == UpsertAll(old(contents), samples)
    {
      hide Encode, ToMap, UpsertAll, CompressedRawSamples.Valid;
      ghost var before := contents;
      var decoder := new RawSampleDecoder(this);
      var merged := new CompressedRawSamples();
      var current, more := decoder.Next();
      var next := 0;
      ghost var taken := 0;
      MergeStart(before, samples);
      while more || next < |samples|
        invariant decoder.Valid() && decoder.contents == before && fresh(decoder)
        invariant merged.Valid() && fresh(merged)
        invariant if more then taken < |before| && decoder.index == taken + 1 && current == before[taken]
                  else taken == |before| == decoder.index
        invariant MergedSoFar(merged.contents, before, taken, samples, next)
        decreases |before| - taken + |samples| - next
      {
        if !more {
          MergeTakeNew(merged.contents, before, taken, samples, next);
          merged.AppendSample(samples[next]);
          next := next + 1;
        } else if next == |samples| {
          MergeTakeOld(merged.contents, before, taken, samples, next);
          merged.AppendSample(current);
          taken := taken + 1;
          current, more := decoder.Next();
        } else if samples[next].timestamp < current.timestamp {
          MergeTakeNew(merged.contents, before, taken, samples, next);
          merged.AppendSample(samples[next]);
          next := next + 1;
        } else if samples[next].timestamp == current.timestamp {
          MergeTakeBoth(merged.contents, before, taken, samples, next);
          merged.AppendSample(samples[next]);
          next := next + 1;
          taken := taken + 1;
          current, more := decoder.Next();
        } else {
          MergeTakeOld(merged.contents, before, taken, samples, next);
          merged.AppendSample(current);
          taken := taken + 1;
          current, more := decoder.Next();
        }
      }
      MergeDone(merged.contents, before, samples);
      CopyFrom(merged);
    }

    /** Assignment of one buffer struct to another. */
    method CopyFrom(other: CompressedRawSamples)
      requires other.Valid()
      modifies this
      ensures Valid() && contents == other.contents
    {
      data, count, lastStamp := other.data, other.count, other.lastStamp;
      contents := other.contents;
    }

    /** Drops the samples before the cutoff and counts them. */
    method PruneBefore(before: int) returns (deleted: int)
      requires Valid() && Ascending(contents)
      modifies this
      ensures Valid() && contents == From(old(contents), before)
      ensures deleted == |old(contents)| - |contents|
    {
      hide Encode, From, Before;
      var first := FirstStamp();
      if count == 0 || first >= before {
        AllFrom(contents, before);
        return 0;
      }
      if lastStamp < before {
        AllBefore(contents, before);
        EncodeEmpty();
        deleted := count;
        data, count, lastStamp, contents := [], 0, 0, [];
        return;
      }
      deleted := KeepFrom(before);
    }

    /** Re-encodes every sample under its new label id. */
    method Relabel(remap: seq<uint32>)
      requires Valid() && forall i :: 0 <= i < |contents| ==> contents[i].labels < |remap|
      modifies this
      ensures Valid() && contents == Remapped(old(contents), remap)
    {
      hide Encode, CompressedRawSamples.Valid;
      ghost var all := contents;
      var decoder := new RawSampleDecoder(this);
      var renamed := new CompressedRawSamples();
      var sample, more := decoder.Next();
      while more
        invariant decoder.Valid() && decoder.contents == all && fresh(decoder)
        invariant renamed.Valid() && fresh(renamed)
        invariant more ==> decoder.index > 0 && sample == all[decoder.index - 1]
        invariant !more ==> decoder.index == |all|
        invariant renamed.contents == Remapped(all[..Seen(decoder.index, more)], remap)
        decreases |all| - Seen(decoder.index, more)
      {
        assert all[..decoder.index] == all[..decoder.index - 1] + [sample];
        renamed.AppendSample(sample.(labels := remap[sample.labels]));
        sample, more := decoder.Next();
      }
      assert all[..|all|] == all;
      CopyFrom(renamed);
    }

    method KeepFrom(before: int) returns (deleted: int)
      requires Valid()
      modifies this
      ensures Valid() && contents == From(old(contents), before)
      ensures deleted == |old(contents)| - |contents|
    {
      hide Encode, From, CompressedRawSamples.Valid;
      ghost var all := contents;
      var decoder := new RawSampleDecoder(this);
      var kept := new CompressedRawSamples();
      deleted := 0;
      var sample, more := decoder.Next();
      FromNothing(all, before);
      while more
        invariant decoder.Valid() && decoder.contents == all && fresh(decoder)
        invariant kept.Valid() && fresh(kept)
        invariant more ==> decoder.index > 0 && sample == all[decoder.index - 1]
        invariant !more ==> decoder.index == |all|
        invariant kept.contents == From(all[..Seen(decoder.index, more)], before)
        invariant deleted + |kept.contents| == Seen(decoder.index, more)
        decreases |all| - Seen(decoder.index, more)
      {
        FromGrow(all, decoder.index - 1, before);
        if sample.timestamp < before {
          deleted := deleted + 1;
        } else {
          kept.AppendSample(sample);
        }
        sample, more := decoder.Next();
      }
      assert all[..|all|] == all;
      CopyFrom(kept);
    }
  }

  /** The same samples with every label id looked up in `remap`. */
  function Remapped(s: seq<RawSample>, remap: seq<uint32>): (r: seq<RawSample>)
    requires forall i :: 0 <= i < |s| ==> s[i].labels < |remap|
    ensures |r| == |s|
    ensures forall i :: 0 <= i < |s| ==> r[i] == s[i].(labels := remap[s[i].labels])
  {
    seq(|s|, i requires 0 <= i < |s| => s[i].(labels := remap[s[i].labels]))
  }

  lemma FromNothing(s: seq<RawSample>, t: int)
    ensures From(s[..0], t) == []
  {
  }

  /** How many samples have been dealt with when the decoder may be holding one. */
  ghost function Seen(index: int, more: bool): int {
    if more then index - 1 else index
  }

  lemma EncodeEmpty()
    ensures Encode([]) == []
  {
  }

  lemma MergeStart(older: seq<RawSample>, newer: seq<RawSample>)
    ensures MergedSoFar([], older, 0, newer, 0)
  {
    assert older[..0] == [] && newer[..0] == [];
  }

  lemma AppendEncoded(s: seq<RawSample>, sample: RawSample)
    ensures Encode(s + [sample]) ==
            Encode(s) + EncodeStamp(s, sample.timestamp) + PutWord(sample.value, 8) + PutUvarint(sample.labels)
  {
    hide PutWord, PutUvarint, EncodeStamp;
    assert (s + [sample])[..|s|] == s;
  }
}
