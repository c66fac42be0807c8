/** One logical series in the raw window: an encoded prefix, a directly searchable
    newest part, and interned label sets. Together they are a last-writer-wins map. */
module RawSeries {
  import opened Words
  import opened Timeline
  import opened RawCodec
  import opened RawSamples

  datatype LabelSet = LabelSet(hash: string, json: string)

  type Entry = Sample<LabelSet>

  // ---- resolving interned labels ------------------------------------------------------------

  predicate IdsBelow(s: seq<RawSample>, n: int) {
    forall i :: 0 <= i < |s| ==> s[i].labels < n
  }

  function ResolveOne(x: RawSample, hashes: seq<string>, jsons: seq<string>): Entry
    requires |hashes| == |jsons| && x.labels < |hashes|
  {
    Sample(x.timestamp, x.value, LabelSet(hashes[x.labels], jsons[x.labels]))
  }

  function Resolve(s: seq<RawSample>, hashes: seq<string>, jsons: seq<string>): (r: seq<Entry>)
    requires |hashes| == |jsons| && IdsBelow(s, |hashes|)
    ensures |r| == |s|
    ensures forall i :: 0 <= i < |s| ==> r[i] == ResolveOne(s[i], hashes, jsons)
  {
    seq(|s|, i requires 0 <= i < |s| => ResolveOne(s[i], hashes, jsons))
  }

  lemma ResolveConcat(a: seq<RawSample>, b: seq<RawSample>, hashes: seq<string>, jsons: seq<string>)
    requires |hashes| == |jsons| && IdsBelow(a, |hashes|) && IdsBelow(b, |hashes|)
    ensures IdsBelow(a + b, |hashes|)
    ensures Resolve(a + b, hashes, jsons) == Resolve(a, hashes, jsons) + Resolve(b, hashes, jsons)
  {
  }

  lemma ResolveAscending(s: seq<RawSample>, hashes: seq<string>, jsons: seq<string>)
    requires |hashes| == |jsons| && IdsBelow(s, |hashes|) && Ascending(s)
    ensures Ascending(Resolve(s, hashes, jsons))
  {
  }

  lemma FilterLast<L>(s: seq<Sample<L>>, t: int)
    requires s != []
    ensures var init, x := s[..|s| - 1], s[|s| - 1];
            if x.timestamp < t then Before(s, t) == Before(init, t) + [x] && From(s, t) == From(init, t)
            else Before(s, t) == Before(init, t) && From(s, t) == From(init, t) + [x]
  {
  }

  lemma ResolveStamp(x: RawSample, hashes: seq<string>, jsons: seq<string>)
    requires |hashes| == |jsons| && x.labels < |hashes|
    ensures ResolveOne(x, hashes, jsons).timestamp == x.timestamp
  {
  }

  lemma {:induction false} ResolveFilters(s: seq<RawSample>, t: int, hashes: seq<string>, jsons: seq<string>)
    requires |hashes| == |jsons| && IdsBelow(s, |hashes|)
    ensures IdsBelow(Before(s, t), |hashes|) && IdsBelow(From(s, t), |hashes|)
    ensures Resolve(Before(s, t), hashes, jsons) == Before(Resolve(s, hashes, jsons), t)
    ensures Resolve(From(s, t), hashes, jsons) == From(Resolve(s, hashes, jsons), t)
  {
    hide Resolve, ResolveOne, Before, From;
    var r := Resolve(s, hashes, jsons);
    if s == [] {
      AllFrom(s, t);
      AllFrom(r, t);
    } else {
      var init, x := s[..|s| - 1], s[|s| - 1];
      FilterLast(s, t);
      FilterLast(r, t);
      ResolveFilters(init, t, hashes, jsons);
      ResolveConcat(Before(init, t), [x], hashes, jsons);
      ResolveConcat(From(init, t), [x], hashes, jsons);
      assert r[..|s| - 1] == Resolve(init, hashes, jsons);
      assert Resolve([x], hashes, jsons) == [ResolveOne(x, hashes, jsons)];
      ResolveStamp(x, hashes, jsons);
    }
  }

  lemma ResolveUpsert(s: seq<RawSample>, e: RawSample, hashes: seq<string>, jsons: seq<string>)
    requires |hashes| == |jsons| && IdsBelow(s, |hashes|) && e.labels < |hashes|
    ensures IdsBelow(Upsert(s, e), |hashes|)
    ensures Resolve(Upsert(s, e), hashes, jsons) == Upsert(Resolve(s, hashes, jsons), ResolveOne(e, hashes, jsons))
  {
    hide Before, From;
    var t: int := e.timestamp;
    ResolveFilters(s, t, hashes, jsons);
    ResolveFilters(s, t + 1, hashes, jsons);
    ResolveConcat(Before(s, t), [e], hashes, jsons);
    ResolveConcat(Before(s, t) + [e], From(s, t + 1), hashes, jsons);
  }

  lemma {:induction false} ResolveMap(s: seq<RawSample>, hashes: seq<string>, jsons: seq<string>)
    requires |hashes| == |jsons| && IdsBelow(s, |hashes|)
    ensures ToMap(Resolve(s, hashes, jsons)).Keys == ToMap(s).Keys
    ensures forall t :: t in ToMap(s) ==>
              ToMap(s)[t].labels < |hashes| && ToMap(Resolve(s, hashes, jsons))[t] == ResolveOne(ToMap(s)[t], hashes, jsons)
  {
    if s != [] {
      ResolveMap(s[..|s| - 1], hashes, jsons);
      assert Resolve(s, hashes, jsons)[..|s| - 1] == Resolve(s[..|s| - 1], hashes, jsons);
    }
  }

  // ---- where an update lands ------------------------------------------------------------------

  lemma UpsertLeft<L>(c: seq<Sample<L>>, d: seq<Sample<L>>, e: Sample<L>)
    requires forall i :: 0 <= i < |d| ==> d[i].timestamp > e.timestamp
    ensures Upsert(c + d, e) == Upsert(c, e) + d
  {
    hide Before, From;
    FilterConcat(c, d, e.timestamp);
    FilterConcat(c, d, e.timestamp + 1);
    AllFrom(d, e.timestamp);
    AllFrom(d, e.timestamp + 1);
  }

  lemma UpsertRight<L>(c: seq<Sample<L>>, d: seq<Sample<L>>, e: Sample<L>)
    requires forall i :: 0 <= i < |c| ==> c[i].timestamp < e.timestamp
    ensures Upsert(c + d, e) == c + Upsert(d, e)
  {
    hide Before, From;
    FilterConcat(c, d, e.timestamp);
    FilterConcat(c, d, e.timestamp + 1);
    AllBefore(c, e.timestamp);
    AllBefore(c, e.timestamp + 1);
  }

  lemma UpsertSlice<L>(d: seq<Sample<L>>, e: Sample<L>, cut: int)
    requires Ascending(d) && Splits(d, e.timestamp, cut)
    ensures if cut < |d| && d[cut].timestamp == e.timestamp
            then Upsert(d, e) == d[cut := e]
            else Upsert(d, e) == d[..cut] + [e] + d[cut..]
  {
    hide Before, From;
    CutAt(d, e.timestamp, cut);
    if cut < |d| && d[cut].timestamp == e.timestamp {
      CutAt(d, e.timestamp + 1, cut + 1);
      assert d[cut := e] == d[..cut] + [e] + d[cut + 1..];
    } else {
      CutAt(d, e.timestamp + 1, cut);
    }
  }

  /** Binary search for the first sample at or after `t`. */
  method SearchStamp(samples: seq<RawSample>, t: int) returns (index: int)
    requires Ascending(samples)
    ensures Splits(samples, t, index)
  {
    var i, j := 0, |samples|;
    while i < j
      invariant 0 <= i <= j <= |samples|
      invariant forall k :: 0 <= k < i ==> samples[k].timestamp < t
      invariant forall k :: j <= k < |samples| ==> samples[k].timestamp >= t
    {
      var h := (i + j) / 2;
      if samples[h].timestamp < t {
        i := h + 1;
      } else {
        j := h;
      }
    }
    return i;
  }

  /** Label sets whose minute must be rebuilt once `e` is written: those of a replaced
      sample, and that of a sample arriving behind the directly searchable part. */
  function Marks(v: seq<Entry>, e: Entry, directCutoff: int): set<string> {
    if e.timestamp in ToMap(v) then {ToMap(v)[e.timestamp].labels.hash, e.labels.hash}
    else if e.timestamp < directCutoff then {e.labels.hash}
    else {}
  }

  predicate InverseTables(ids: map<string, uint32>, hashes: seq<string>) {
    && (forall h :: h in ids ==> ids[h] < |hashes| && hashes[ids[h]] == h)
    && (forall i :: 0 <= i < |hashes| ==> hashes[i] in ids && ids[hashes[i]] == i)
  }

  class RawSeries {
    var tagsJSON: string
    var labelIDs: map<string, uint32>
    var labelHashes: seq<string>
    var labelsJSON: seq<string>
    var samples: seq<RawSample>
    const compressed: CompressedRawSamples
    /** The one JSON text each label hash stands for: hashing is taken to be injective. */
    ghost const jsonOf: string -> string

    ghost function All(): seq<RawSample>
      reads this, compressed
    {
      compressed.contents + samples
    }

    /** Hash table and arrays are inverse to each other, and every sample id is in range. */
    ghost predicate Interned()
      reads this, compressed
    {
      && |labelHashes| == |labelsJSON| <= TWO_32
      && InverseTables(labelIDs, labelHashes)
      && (forall i :: 0 <= i < |labelHashes| ==> labelsJSON[i] == jsonOf(labelHashes[i]))
      && IdsBelow(compressed.contents, |labelHashes|)
      && IdsBelow(samples, |labelHashes|)
    }

    ghost predicate Valid()
      reads this, compressed
    {
      compressed.Valid() && Interned() && Ascending(All())
    }

    /** The samples of the series in time order, each with its own label set. */
    ghost function View(): seq<Entry>
      requires Valid()
      reads this, compressed
    {
      ResolveConcat(compressed.contents, samples, labelHashes, labelsJSON);
      Resolve(All(), labelHashes, labelsJSON)
    }

    /** Everything encoded lies before the cutoff and everything direct from it on. */
    ghost predicate SplitAt(cutoff: int)
      reads this, compressed
    {
      && (forall i :: 0 <= i < |compressed.contents| ==> compressed.contents[i].timestamp < cutoff)
      && (forall i :: 0 <= i < |samples| ==> samples[i].timestamp >= cutoff)
    }

    constructor (tagsJSON: string, ghost jsonOf: string -> string)
      ensures Valid() && View() == [] && fresh(compressed)
      ensures this.tagsJSON == tagsJSON && this.jsonOf == jsonOf && labelHashes == []
      ensures forall cutoff :: SplitAt(cutoff)
    {
      this.tagsJSON := tagsJSON;
      this.jsonOf := jsonOf;
      labelIDs, labelHashes, labelsJSON, samples := map[], [], [], [];
      compressed := new CompressedRawSamples();
      new;
      hide Encode;
      assert All() == [];
    }

    lemma ValidParts()
      requires Valid()
      ensures Ascending(compressed.contents) && Ascending(samples)
      ensures IdsBelow(All(), |labelHashes|)
      ensures Ascending(View())
    {
      hide Encode, Resolve;
      var c, d := compressed.contents, samples;
      ResolveConcat(c, d, labelHashes, labelsJSON);
      ResolveAscending(All(), labelHashes, labelsJSON);
      forall i, j | 0 <= i < j < |c| ensures c[i].timestamp < c[j].timestamp {
        assert All()[i] == c[i] && All()[j] == c[j];
      }
      forall i, j | 0 <= i < j < |d| ensures d[i].timestamp < d[j].timestamp {
        assert All()[|c| + i] == d[i] && All()[|c| + j] == d[j];
      }
    }

    /** Looks the label set up, giving it the next free id when it is new. */
    method Intern(hash: string, json: string) returns (labelID: uint32)
      requires Valid() && |labelHashes| < TWO_32
      requires json == jsonOf(hash)
      modifies this`labelIDs, this`labelHashes, this`labelsJSON
      ensures Valid() && View() == old(View())
      ensures labelID < |labelHashes| && labelHashes[labelID] == hash && labelsJSON[labelID] == json
      ensures |labelHashes| <= |old(labelHashes)| + 1
    {
      hide Encode;
      if hash in labelIDs {
        labelID := labelIDs[hash];
      } else {
        labelID := |labelsJSON|;
        labelIDs := labelIDs[hash := labelID];
        labelHashes := labelHashes + [hash];
        labelsJSON := labelsJSON + [json];
      }
    }

    /** Rewrites the encoded buffer with the sample inserted or replacing its timestamp. */
    method ReplaceCompressed(sample: RawSample) returns (found: RawSample, replaced: bool)
      requires compressed.Valid() && Ascending(compressed.contents)
      modifies compressed
      ensures compressed.Valid() && compressed.contents == Upsert(old(compressed.contents), sample)
      ensures replaced <==> sample.timestamp in ToMap(old(compressed.contents))
      ensures replaced ==> found == ToMap(old(compressed.contents))[sample.timestamp]
    {
      hide Encode, Upsert, ToMap, ReplacedSoFar, CompressedRawSamples.Valid;
      ghost var all := compressed.contents;
      found, replaced := Sample(0, 0, 0), false;
      var inserted := false;
      var decoder := new RawSampleDecoder(compressed);
      var encoded := new CompressedRawSamples();
      var current, more := decoder.Next();
      ReplaceStart(all, sample, found);
      while more
        invariant decoder.Valid() && decoder.contents == all && fresh(decoder)
        invariant encoded.Valid() && fresh(encoded)
        invariant more ==> decoder.index > 0 && current == all[decoder.index - 1]
        invariant !more ==> decoder.index == |all|
        invariant ReplacedSoFar(encoded.contents, all, Seen(decoder.index, more), sample, inserted, replaced, found)
        decreases |all| - Seen(decoder.index, more)
      {
        ReplaceStep(encoded.contents, all, decoder.index - 1, sample, inserted, replaced, found);
        if !inserted && sample.timestamp < current.timestamp {
          encoded.AppendSample(sample);
          inserted := true;
        }
        if !inserted && sample.timestamp == current.timestamp {
          found := current;
          replaced := true;
          encoded.AppendSample(sample);
          inserted := true;
        } else {
          encoded.AppendSample(current);
        }
        current, more := decoder.Next();
      }
      ReplaceEnd(encoded.contents, all, sample, inserted, replaced, found);
      if !inserted {
        encoded.AppendSample(sample);
      }
      compressed.CopyFrom(encoded);
    }
  
    /** A sample behind the direct part goes into the encoded buffer. */
    method WriteEncoded(sample: RawSample, directCutoff: int) returns (found: RawSample, replaced: bool)
      requires Valid() && sample.labels < |labelHashes|
      requires SplitAt(directCutoff) && sample.timestamp < directCutoff
      modifies compressed
      ensures Valid()
      ensures View() == Upsert(old(View()), ResolveOne(sample, labelHashes, labelsJSON))
      ensures replaced <==> sample.timestamp in ToMap(old(View()))
      ensures replaced ==> found.labels < |labelHashes|
      ensures replaced ==> ToMap(old(View()))[sample.timestamp] == ResolveOne(found, labelHashes, labelsJSON)
      ensures SplitAt(directCutoff)
    {
      hide Encode, Resolve, Upsert, ToMap;
      ValidParts();
      ghost var c, d, before := compressed.contents, samples, All();
      UpsertLeft(c, d, sample);
      UpsertKeepsOrder(before, sample);
      ResolveUpsert(before, sample, labelHashes, labelsJSON);
      ResolveUpsert(c, sample, labelHashes, labelsJSON);
      StampInLeft(c, d, sample.timestamp);
      ResolveMap(before, labelHashes, labelsJSON);
      UpsertBelow(c, sample, directCutoff);
      found, replaced := ReplaceCompressed(sample);
    }

    /** A sample within the direct part is found by binary search and replaced or inserted. */
    method WriteDirect(sample: RawSample, directCutoff: int) returns (found: RawSample, replaced: bool)
      requires Valid() && sample.labels < |labelHashes|
      requires SplitAt(directCutoff) && sample.timestamp >= directCutoff
      modifies this`samples
      ensures Valid()
      ensures View() == Upsert(old(View()), ResolveOne(sample, labelHashes, labelsJSON))
      ensures replaced <==> sample.timestamp in ToMap(old(View()))
      ensures replaced ==> found.labels < |labelHashes|
      ensures replaced ==> ToMap(old(View()))[sample.timestamp] == ResolveOne(found, labelHashes, labelsJSON)
      ensures SplitAt(directCutoff)
    {
      hide Encode, Resolve, Upsert, ToMap;
      ValidParts();
      ghost var c, d, before := compressed.contents, samples, All();
      UpsertRight(c, d, sample);
      UpsertKeepsOrder(before, sample);
      ResolveUpsert(before, sample, labelHashes, labelsJSON);
      ResolveUpsert(d, sample, labelHashes, labelsJSON);
      StampInRight(c, d, sample.timestamp);
      ResolveMap(before, labelHashes, labelsJSON);
      var index := SearchStamp(samples, sample.timestamp);
      UpsertSlice(d, sample, index);
      if index < |samples| && samples[index].timestamp == sample.timestamp {
        found, replaced := samples[index], true;
        FoundInMap(d, sample.timestamp, found, replaced);
        samples := samples[index := sample];
      } else {
        found, replaced := sample, false;
        AbsentAtCut(d, sample.timestamp, index);
        samples := samples[..index] + [sample] + samples[index..];
      }
    }

    /** One step of a batch write: intern the labels, then update whichever half holds the
        timestamp. Returns the label sets whose minute needs a rebuild. */
    method WritePoint(timestamp: int64, value: uint64, hash: string, json: string, directCutoff: int)
        returns (marks: set<string>, dirty: bool)
      requires Valid() && SplitAt(directCutoff) && |labelHashes| < TWO_32
      requires json == jsonOf(hash)
      modifies this, compressed
      ensures Valid() && SplitAt(directCutoff) && tagsJSON == old(tagsJSON)
      ensures View() == Upsert(old(View()), Sample(timestamp, value, LabelSet(hash, json)))
      ensures marks == Marks(old(View()), Sample(timestamp, value, LabelSet(hash, json)), directCutoff)
      ensures dirty <==> timestamp in ToMap(old(View())) && ToMap(old(View()))[timestamp].labels.hash != hash
      ensures |labelHashes| <= |old(labelHashes)| + 1
    {
      hide Encode, Resolve, Upsert, ToMap;
      var labelID := Intern(hash, json);
      var sample := Sample(timestamp, value, labelID);
      marks, dirty := {}, false;
      if timestamp < directCutoff {
        var found, replaced := WriteEncoded(sample, directCutoff);
        if replaced {
          marks := marks + {labelHashes[found.labels]};
          dirty := found.labels != sample.labels;
        }
        marks := marks + {hash};
        return;
      }
      var found, replaced := WriteDirect(sample, directCutoff);
      if replaced {
        marks := {labelHashes[found.labels], hash};
        dirty := found.labels != sample.labels;
      }
    }
  
    /** Moves everything before the cutoff from the direct part into the encoded buffer. */
    method CompressBefore(before: int)
      requires Valid()
      modifies this`samples, compressed
      ensures Valid() && View() == old(View())
      ensures forall cutoff :: cutoff <= before && old(SplitAt(cutoff)) ==> SplitAt(before)
    {
      hide Encode, Resolve;
      ValidParts();
      var index := SearchStamp(samples, before);
      if index == 0 {
        return;
      }
      ghost var c, d := compressed.contents, samples;
      assert All() == (c + d[..index]) + d[index..];
      AscendingPrefix(c + d[..index], d[index..]);
      AppendIsUpsertAll(c, d[..index]);
      compressed.Append(samples[..index]);
      samples := samples[index..];
      assert All() == old(All());
    }

    /** Drops what is before the cutoff from both parts, then forgets unused label sets. */
    method PruneBefore(before: int, ghost cutoff: int) returns (deleted: int)
      requires Valid()
      modifies this, compressed
      ensures Valid() && View() == From(old(View()), before) && tagsJSON == old(tagsJSON)
      ensures deleted == |old(View())| - |View()|
      ensures old(SplitAt(cutoff)) ==> SplitAt(cutoff)
      ensures |labelHashes| <= |old(labelHashes)|
    {
      hide Encode, Resolve, From;
      deleted := DropBefore(before, cutoff);
      if |samples| + compressed.count > 0 && deleted > 0 {
        CompactLabels(cutoff);
      }
    }

    method DropBefore(before: int, ghost cutoff: int) returns (deleted: int)
      requires Valid()
      modifies this`samples, compressed
      ensures Valid() && View() == From(old(View()), before)
      ensures deleted == |old(View())| - |View()| >= 0
      ensures old(SplitAt(cutoff)) ==> SplitAt(cutoff)
    {
      hide Encode, Resolve, From, IdsBelow;
      ValidParts();
      ghost var c, d := compressed.contents, samples;
      DropShape(c, d, before, labelHashes, labelsJSON);
      var compressedDeleted := compressed.PruneBefore(before);
      var directIndex := SearchStamp(samples, before);
      CutAt(d, before, directIndex);
      FromKeepsBounds(c, before, cutoff);
      samples := samples[directIndex..];
      deleted := compressedDeleted + directIndex;
    }

    method CollectUsed() returns (used: array<bool>)
      requires Valid()
      ensures fresh(used) && used.Length == |labelHashes|
      ensures forall id :: 0 <= id < used.Length ==> (used[id] <==> Uses(All(), id))
    {
      hide Encode;
      used := new bool[|labelHashes|](_ => false);
      ghost var c, d := compressed.contents, samples;
      var decoder := new RawSampleDecoder(compressed);
      var sample, more := decoder.Next();
      while more
        invariant decoder.Valid() && decoder.contents == c && fresh(decoder)
        invariant more ==> decoder.index > 0 && sample == c[decoder.index - 1]
        invariant !more ==> decoder.index == |c|
        invariant forall id :: 0 <= id < used.Length ==> (used[id] <==> Uses(c[..Seen(decoder.index, more)], id))
        decreases |c| - Seen(decoder.index, more)
      {
        UsesGrow(c, decoder.index - 1);
        used[sample.labels] := true;
        sample, more := decoder.Next();
      }
      assert c[..|c|] == c;
      var i := 0;
      while i < |samples|
        invariant 0 <= i <= |samples|
        invariant forall id :: 0 <= id < used.Length ==> (used[id] <==> Uses(c, id) || Uses(d[..i], id))
      {
        UsesGrow(d, i);
        used[samples[i].labels] := true;
        i := i + 1;
      }
      assert d[..i] == d;
      UsesConcat(c, d);
    }

    /** New tables holding only the used label sets, and the old-to-new id map. */
    method RenumberLabels(used: seq<bool>)
        returns (remap: seq<uint32>, hashes: seq<string>, jsons: seq<string>, ids: map<string, uint32>,
                 ghost origin: seq<int>)
      requires Valid() && |used| == |labelHashes|
      requires forall id :: 0 <= id < |used| ==> (used[id] <==> Uses(All(), id))
      ensures |remap| == |used| && |hashes| == |jsons| == |origin| <= |used|
      ensures InverseTables(ids, hashes)
      ensures forall id :: 0 <= id < |used| && used[id] ==> Renamed(id, remap, labelHashes, labelsJSON, hashes, jsons)
      ensures forall n :: 0 <= n < |origin| ==> Originates(n, origin[n], All(), remap, labelHashes, hashes, labelsJSON, jsons)
    {
      hide Encode, Uses;
      remap := seq(|used|, _ => 0);
      hashes, jsons, ids := [], [], map[];
      origin := [];
      var id := 0;
      while id < |used|
        invariant 0 <= id <= |used| == |remap|
        invariant |hashes| == |jsons| == |origin| <= id
        invariant InverseTables(ids, hashes)
        invariant forall o :: 0 <= o < id && used[o] ==> Renamed(o, remap, labelHashes, labelsJSON, hashes, jsons)
        invariant forall n :: 0 <= n < |origin| ==> origin[n] < id
        invariant forall n :: 0 <= n < |origin| ==> Originates(n, origin[n], All(), remap, labelHashes, hashes, labelsJSON, jsons)
      {
        if used[id] {
          var newID := |hashes|;
          var hash := labelHashes[id];
          assert forall n :: 0 <= n < |hashes| ==> hashes[n] == labelHashes[origin[n]] && labelIDs[hashes[n]] == origin[n];
          remap := remap[id := newID];
          hashes, jsons := hashes + [hash], jsons + [labelsJSON[id]];
          ids := ids[hash := newID];
          origin := origin + [id];
        }
        id := id + 1;
      }
    }

    /** Renumbers the label sets so that only the ones some sample uses remain. */
    method CompactLabels(ghost cutoff: int)
      requires Valid()
      modifies this, compressed
      ensures Valid() && View() == old(View()) && tagsJSON == old(tagsJSON)
      ensures |labelHashes| <= |old(labelHashes)|
      ensures old(SplitAt(cutoff)) ==> SplitAt(cutoff)
      ensures |old(labelHashes)| > 1 ==> forall id :: 0 <= id < |labelHashes| ==> Uses(All(), id)
    {
      hide Encode, Resolve;
      if |labelHashes| <= 1 {
        return;
      }
      var used := CollectUsed();
      var usedCount := CountTrue(used);
      if usedCount == used.Length {
        return;
      }
      var remap, hashes, jsons, ids, origin := RenumberLabels(used[..]);
      Renumber(remap, hashes, jsons, ids, origin, cutoff);
    }

    /** Rewrites every sample's id in both parts and installs the new tables. */
    method Renumber(remap: seq<uint32>, hashes: seq<string>, jsons: seq<string>, ids: map<string, uint32>,
                    ghost origin: seq<int>, ghost cutoff: int)
      requires Valid() && |remap| == |labelHashes| && |hashes| == |jsons| == |origin| <= |remap|
      requires InverseTables(ids, hashes)
      requires forall id :: 0 <= id < |remap| && Uses(All(), id) ==> Renamed(id, remap, labelHashes, labelsJSON, hashes, jsons)
      requires forall n :: 0 <= n < |origin| ==> Originates(n, origin[n], All(), remap, labelHashes, hashes, labelsJSON, jsons)
      modifies this, compressed
      ensures Valid() && View() == old(View()) && tagsJSON == old(tagsJSON)
      ensures labelHashes == hashes
      ensures old(SplitAt(cutoff)) ==> SplitAt(cutoff)
      ensures forall id :: 0 <= id < |labelHashes| ==> Uses(All(), id)
    {
      hide Encode, Resolve, Remapped, Renamed, Uses;
      forall n | 0 <= n < |hashes| ensures jsons[n] == jsonOf(hashes[n]) {
        assert Originates(n, origin[n], All(), remap, labelHashes, hashes, labelsJSON, jsons);
      }
      ghost var c, d := compressed.contents, samples;
      RemapKeepsView(c + d, remap, labelHashes, labelsJSON, hashes, jsons);
      ConcatIdsBelow(c, d, |remap|);
      RemappedConcat(c, d, remap);
      RemappedUses(c + d, remap, origin);
      compressed.Relabel(remap);
      RelabelDirect(remap);
      assert All() == Remapped(c + d, remap);
      ConcatIdsBelow(compressed.contents, samples, |hashes|);
      labelHashes, labelsJSON, labelIDs := hashes, jsons, ids;
    }

    method RelabelDirect(remap: seq<uint32>)
      requires IdsBelow(samples, |remap|)
      modifies this`samples
      ensures samples == Remapped(old(samples), remap)
    {
      ghost var d := samples;
      var i := 0;
      while i < |samples|
        invariant 0 <= i <= |samples| == |d|
        invariant forall j :: 0 <= j < i ==> samples[j] == d[j].(labels := remap[d[j].labels])
        invariant forall j :: i <= j < |d| ==> samples[j] == d[j]
      {
        samples := samples[i := samples[i].(labels := remap[samples[i].labels])];
        i := i + 1;
      }
    }
  
    /** The samples of the closed range [start, end], in time order, with their labels. */
    method Range(start: int, end: int) returns (points: seq<Entry>)
      requires Valid()
      ensures points == Before(From(View(), start), end + 1)
    {
      hide Encode, Resolve, From, Before;
      ValidParts();
      ghost var c, d := compressed.contents, samples;
      RangeShape(c, d, start, end, labelHashes, labelsJSON);
      var directStart := SearchStamp(samples, start);
      var directEnd := SearchStamp(samples, end + 1);
      RangeSlice(d, start, end, directStart, directEnd);
      var inDirect := if directStart <= directEnd then samples[directStart..directEnd] else [];
      var encoded := EncodedRange(start, end);
      var first := WithLabels(encoded);
      var second := WithLabels(inDirect);
      return first + second;
    }

    method WithLabels(raw: seq<RawSample>) returns (points: seq<Entry>)
      requires |labelHashes| == |labelsJSON| && IdsBelow(raw, |labelHashes|)
      ensures points == Resolve(raw, labelHashes, labelsJSON)
    {
      points := [];
      var i := 0;
      while i < |raw|
        invariant 0 <= i <= |raw|
        invariant points == Resolve(raw[..i], labelHashes, labelsJSON)
      {
        assert raw[..i + 1] == raw[..i] + [raw[i]];
        points := points + [ResolveOne(raw[i], labelHashes, labelsJSON)];
        i := i + 1;
      }
      assert raw[..|raw|] == raw;
    }

    /** The encoded part of a range query: skips to the start, stops after the end. */
    method EncodedRange(start: int, end: int) returns (found: seq<RawSample>)
      requires compressed.Valid() && Ascending(compressed.contents)
      ensures found == Before(From(compressed.contents, start), end + 1)
    {
      hide Encode, From, Before;
      ghost var c := compressed.contents;
      found := [];
      var first := compressed.FirstStamp();
      if !(compressed.count > 0 && start <= compressed.lastStamp && end >= first) {
        NothingInRange(c, start, end);
        return;
      }
      var decoder := new RawSampleDecoder(compressed);
      var sample, more := decoder.Next();
      RangeStart(c, start, end);
      while more
        invariant decoder.Valid() && decoder.contents == c && fresh(decoder)
        invariant more ==> decoder.index > 0 && sample == c[decoder.index - 1]
        invariant !more ==> decoder.index == |c|
        invariant found == Before(From(c[..Seen(decoder.index, more)], start), end + 1)
        decreases |c| - Seen(decoder.index, more)
      {
        RangeGrow(c, decoder.index - 1, start, end);
        if sample.timestamp > end {
          RangeDone(c, decoder.index - 1, start, end);
          return;
        }
        if sample.timestamp >= start {
          found := found + [sample];
        }
        sample, more := decoder.Next();
      }
      assert c[..|c|] == c;
    }
  }

  // ---- range queries -------------------------------------------------------------------------

  lemma RangeShape(c: seq<RawSample>, d: seq<RawSample>, start: int, end: int, hashes: seq<string>, jsons: seq<string>)
    requires |hashes| == |jsons| && IdsBelow(c, |hashes|) && IdsBelow(d, |hashes|)
    ensures IdsBelow(c + d, |hashes|)
    ensures IdsBelow(Before(From(c, start), end + 1), |hashes|) && IdsBelow(Before(From(d, start), end + 1), |hashes|)
    ensures Before(From(Resolve(c + d, hashes, jsons), start), end + 1)
         == Resolve(Before(From(c, start), end + 1), hashes, jsons) + Resolve(Before(From(d, start), end + 1), hashes, jsons)
  {
    hide From, Before, Resolve;
    FilterConcat(c, d, start);
    FilterConcat(From(c, start), From(d, start), end + 1);
    ConcatIdsBelow(c, d, |hashes|);
    ResolveFilters(c, start, hashes, jsons);
    ResolveFilters(d, start, hashes, jsons);
    ResolveFilters(From(c, start), end + 1, hashes, jsons);
    ResolveFilters(From(d, start), end + 1, hashes, jsons);
    ResolveFilters(c + d, start, hashes, jsons);
    ResolveFilters(From(c + d, start), end + 1, hashes, jsons);
    ResolveConcat(Before(From(c, start), end + 1), Before(From(d, start), end + 1), hashes, jsons);
  }

  lemma RangeSlice<L>(d: seq<Sample<L>>, start: int, end: int, lo: int, hi: int)
    requires Ascending(d) && Splits(d, start, lo) && Splits(d, end + 1, hi)
    ensures Before(From(d, start), end + 1) == if lo <= hi then d[lo..hi] else []
  {
    hide From, Before;
    CutAt(d, start, lo);
    if lo <= hi {
      CutAt(d[lo..], end + 1, hi - lo);
      assert d[lo..][..hi - lo] == d[lo..hi];
    } else {
      CutAt(d[lo..], end + 1, 0);
    }
  }

  lemma NothingInRange<L>(c: seq<Sample<L>>, start: int, end: int)
    requires Ascending(c)
    requires c != [] ==> start > c[|c| - 1].timestamp || end < c[0].timestamp
    ensures Before(From(c, start), end + 1) == []
  {
    if c == [] {
    } else if start > c[|c| - 1].timestamp {
      AllBefore(c, start);
    } else {
      var cut := FindCut(c, start);
      AllFrom(c[cut..], end + 1);
    }
  }

  lemma RangeStart<L>(c: seq<Sample<L>>, start: int, end: int)
    ensures Before(From(c[..0], start), end + 1) == []
  {
  }

  lemma RangeGrow<L>(c: seq<Sample<L>>, i: int, start: int, end: int)
    requires 0 <= i < |c|
    ensures Before(From(c[..i + 1], start), end + 1) ==
            if start <= c[i].timestamp <= end then Before(From(c[..i], start), end + 1) + [c[i]]
            else Before(From(c[..i], start), end + 1)
  {
    FromGrow(c, i, start);
    var r := From(c[..i], start);
    if c[i].timestamp >= start {
      assert (r + [c[i]])[..|r|] == r;
    }
  }

  lemma {:induction false} RangeDone<L>(c: seq<Sample<L>>, i: int, start: int, end: int)
    requires Ascending(c) && 0 <= i < |c| && c[i].timestamp > end
    ensures Before(From(c, start), end + 1) == Before(From(c[..i], start), end + 1)
    decreases |c|
  {
    RangeGrow(c, |c| - 1, start, end);
    assert c[..|c|] == c;
    if i < |c| - 1 {
      RangeDone(c[..|c| - 1], i, start, end);
      assert c[..|c| - 1][..i] == c[..i];
    }
  }

  lemma ConcatIdsBelow(a: seq<RawSample>, b: seq<RawSample>, n: int)
    ensures IdsBelow(a + b, n) <==> IdsBelow(a, n) && IdsBelow(b, n)
  {
    if IdsBelow(a + b, n) {
      forall i | 0 <= i < |a| ensures a[i].labels < n { assert (a + b)[i] == a[i]; }
      forall i | 0 <= i < |b| ensures b[i].labels < n { assert (a + b)[|a| + i] == b[i]; }
    }
  }

  /** New id `n` is the new number of old id `o`, which some sample uses. */
  predicate Originates(n: int, o: int, s: seq<RawSample>, remap: seq<uint32>, hashes0: seq<string>,
                       hashes: seq<string>, jsons0: seq<string>, jsons: seq<string>)
    requires 0 <= n < |hashes| == |jsons| && |remap| == |hashes0| == |jsons0|
  {
    0 <= o < |remap| && remap[o] == n && Uses(s, o) && hashes[n] == hashes0[o] && jsons[n] == jsons0[o]
  }

  method CountTrue(used: array<bool>) returns (count: int)
    ensures count == used.Length <==> forall i :: 0 <= i < used.Length ==> used[i]
  {
    count := 0;
    var i := 0;
    while i < used.Length
      invariant 0 <= count <= i <= used.Length
      invariant count == i <==> forall j :: 0 <= j < i ==> used[j]
    {
      if used[i] {
        count := count + 1;
      }
      i := i + 1;
    }
  }

  predicate Renamed(id: int, remap: seq<uint32>, hashes0: seq<string>, jsons0: seq<string>,
                    hashes: seq<string>, jsons: seq<string>)
    requires 0 <= id < |remap| == |hashes0| == |jsons0| && |hashes| == |jsons|
  {
    remap[id] < |hashes| && hashes[remap[id]] == hashes0[id] && jsons[remap[id]] == jsons0[id]
  }

  lemma UsesGrow(s: seq<RawSample>, i: int)
    requires 0 <= i < |s|
    ensures forall id :: Uses(s[..i + 1], id) <==> Uses(s[..i], id) || s[i].labels == id
  {
    forall id ensures Uses(s[..i + 1], id) <==> Uses(s[..i], id) || s[i].labels == id {
      if Uses(s[..i], id) {
        var k :| 0 <= k < |s[..i]| && s[..i][k].labels == id;
        assert s[..i + 1][k].labels == id;
      }
      if s[i].labels == id { assert s[..i + 1][i].labels == id; }
      if Uses(s[..i + 1], id) {
        var k :| 0 <= k < |s[..i + 1]| && s[..i + 1][k].labels == id;
        if k < i { assert s[..i][k].labels == id; }
      }
    }
  }

  lemma UsesConcat(a: seq<RawSample>, b: seq<RawSample>)
    ensures forall id :: Uses(a + b, id) <==> Uses(a, id) || Uses(b, id)
  {
    forall id ensures Uses(a + b, id) <==> Uses(a, id) || Uses(b, id) {
      if Uses(a, id) {
        var k :| 0 <= k < |a| && a[k].labels == id;
        assert (a + b)[k].labels == id;
      }
      if Uses(b, id) {
        var k :| 0 <= k < |b| && b[k].labels == id;
        assert (a + b)[|a| + k].labels == id;
      }
      if Uses(a + b, id) {
        var k :| 0 <= k < |a + b| && (a + b)[k].labels == id;
        if k < |a| { assert a[k].labels == id; } else { assert b[k - |a|].labels == id; }
      }
    }
  }

  /** Renaming ids and renumbering the tables the same way changes no resolved sample. */
  lemma RemapKeepsView(s: seq<RawSample>, remap: seq<uint32>, hashes0: seq<string>, jsons0: seq<string>,
                       hashes: seq<string>, jsons: seq<string>)
    requires |remap| == |hashes0| == |jsons0| && |hashes| == |jsons| && IdsBelow(s, |hashes0|)
    requires forall id :: 0 <= id < |remap| && Uses(s, id) ==> Renamed(id, remap, hashes0, jsons0, hashes, jsons)
    ensures IdsBelow(Remapped(s, remap), |hashes|)
    ensures Resolve(Remapped(s, remap), hashes, jsons) == Resolve(s, hashes0, jsons0)
    ensures Ascending(s) ==> Ascending(Remapped(s, remap))
  {
    forall i | 0 <= i < |s| ensures Renamed(s[i].labels, remap, hashes0, jsons0, hashes, jsons) {
      assert Uses(s, s[i].labels);
    }
  }

  lemma RemappedConcat(a: seq<RawSample>, b: seq<RawSample>, remap: seq<uint32>)
    requires IdsBelow(a, |remap|) && IdsBelow(b, |remap|)
    ensures Remapped(a + b, remap) == Remapped(a, remap) + Remapped(b, remap)
  {
  }

  lemma RemappedUses(s: seq<RawSample>, remap: seq<uint32>, origin: seq<int>)
    requires IdsBelow(s, |remap|)
    requires forall n :: 0 <= n < |origin| ==>
               0 <= origin[n] < |remap| && remap[origin[n]] == n && Uses(s, origin[n])
    ensures forall n :: 0 <= n < |origin| ==> Uses(Remapped(s, remap), n)
  {
    forall n | 0 <= n < |origin| ensures Uses(Remapped(s, remap), n) {
      assert Uses(s, origin[n]);
      var i :| 0 <= i < |s| && s[i].labels == origin[n];
      assert Remapped(s, remap)[i].labels == n;
    }
  }

  lemma {:induction false} DropShape(c: seq<RawSample>, d: seq<RawSample>, before: int, hashes: seq<string>, jsons: seq<string>)
    requires Ascending(c) && Ascending(d) && Ascending(c + d) && |hashes| == |jsons|
    requires IdsBelow(c, |hashes|) && IdsBelow(d, |hashes|) && IdsBelow(c + d, |hashes|)
    ensures Ascending(From(c, before) + From(d, before))
    ensures IdsBelow(From(c, before), |hashes|) && IdsBelow(From(d, before), |hashes|)
    ensures IdsBelow(From(c, before) + From(d, before), |hashes|)
    ensures Resolve(From(c, before) + From(d, before), hashes, jsons) == From(Resolve(c + d, hashes, jsons), before)
    ensures |From(c, before)| <= |c| && |From(d, before)| <= |d|
  {
    hide From, Resolve, IdsBelow;
    FilterConcat(c, d, before);
    FromRestrictsMap(c + d, before);
    ResolveFilters(c, before, hashes, jsons);
    ResolveFilters(d, before, hashes, jsons);
    ResolveFilters(c + d, before, hashes, jsons);
    var i := FindCut(c, before);
    var j := FindCut(d, before);
  }

  lemma FromKeepsBounds<L>(s: seq<Sample<L>>, before: int, cutoff: int)
    requires Ascending(s)
    ensures (forall i :: 0 <= i < |s| ==> s[i].timestamp < cutoff) ==>
              (forall i :: 0 <= i < |From(s, before)| ==> From(s, before)[i].timestamp < cutoff)
  {
    hide From;
    var cut := FindCut(s, before);
  }

  predicate Uses(s: seq<RawSample>, id: int) {
    exists i :: 0 <= i < |s| && s[i].labels == id
  }

  lemma AscendingPrefix<L>(a: seq<Sample<L>>, b: seq<Sample<L>>)
    requires Ascending(a + b)
    ensures Ascending(a) && Ascending(b)
  {
    forall i, j | 0 <= i < j < |a| ensures a[i].timestamp < a[j].timestamp {
      assert (a + b)[i] == a[i] && (a + b)[j] == a[j];
    }
    forall i, j | 0 <= i < j < |b| ensures b[i].timestamp < b[j].timestamp {
      assert (a + b)[|a| + i] == b[i] && (a + b)[|a| + j] == b[j];
    }
  }

  lemma StampInLeft<L>(c: seq<Sample<L>>, d: seq<Sample<L>>, t: int)
    requires forall i :: 0 <= i < |d| ==> d[i].timestamp > t
    ensures t in ToMap(c + d) <==> t in ToMap(c)
    ensures t in ToMap(c) ==> ToMap(c + d)[t] == ToMap(c)[t]
  {
    hide ToMap;
    ToMapConcat(c, d);
    MapKeysFrom(d, t + 1);
  }

  lemma StampInRight<L>(c: seq<Sample<L>>, d: seq<Sample<L>>, t: int)
    requires forall i :: 0 <= i < |c| ==> c[i].timestamp < t
    ensures t in ToMap(c + d) <==> t in ToMap(d)
    ensures t in ToMap(d) ==> ToMap(c + d)[t] == ToMap(d)[t]
  {
    hide ToMap;
    ToMapConcat(c, d);
    MapKeysBelow(c, t);
  }

  lemma AbsentAtCut<L>(d: seq<Sample<L>>, t: int, cut: int)
    requires Ascending(d) && Splits(d, t, cut) && !(cut < |d| && d[cut].timestamp == t)
    ensures t !in ToMap(d)
  {
    ToMapEntries(d);
  }

  lemma UpsertBelow<L>(c: seq<Sample<L>>, e: Sample<L>, cutoff: int)
    requires e.timestamp < cutoff && forall i :: 0 <= i < |c| ==> c[i].timestamp < cutoff
    ensures forall i :: 0 <= i < |Upsert(c, e)| ==> Upsert(c, e)[i].timestamp < cutoff
  {
    hide Before, From;
    FilterIsSubset(c, e.timestamp);
    FilterIsSubset(c, e.timestamp + 1);
    forall i | 0 <= i < |Upsert(c, e)| ensures Upsert(c, e)[i].timestamp < cutoff {
      var x := Upsert(c, e)[i];
      assert x in Before(c, e.timestamp) || x == e || x in From(c, e.timestamp + 1);
    }
  }

  lemma {:induction false} FilterIsSubset<L>(s: seq<Sample<L>>, t: int)
    ensures forall x :: x in Before(s, t) ==> x in s
    ensures forall x :: x in From(s, t) ==> x in s
  {
    if s != [] {
      FilterIsSubset(s[..|s| - 1], t);
      assert s == s[..|s| - 1] + [s[|s| - 1]];
    }
  }

  // ---- the scan that inserts or replaces one sample -----------------------------------------

  /** `m` is what the scan has written after reading the first `k` samples of `all`. */
  ghost predicate ReplacedSoFar(m: seq<RawSample>, all: seq<RawSample>, k: int, e: RawSample,
                                inserted: bool, replaced: bool, found: RawSample)
  {
    && 0 <= k <= |all|
    && (inserted ==> m == Upsert(all[..k], e) && k > 0 && all[k - 1].timestamp >= e.timestamp)
    && (!inserted ==> m == all[..k] && !replaced && forall i :: 0 <= i < k ==> all[i].timestamp < e.timestamp)
    && (replaced ==> found in all && found.timestamp == e.timestamp)
    && (inserted && !replaced ==> forall i :: 0 <= i < |all| ==> all[i].timestamp != e.timestamp)
  }

  lemma ReplaceStart(all: seq<RawSample>, e: RawSample, found: RawSample)
    ensures ReplacedSoFar([], all, 0, e, false, false, found)
  {
  }

  lemma ReplaceStep(m: seq<RawSample>, all: seq<RawSample>, k: int, e: RawSample,
                    inserted: bool, replaced: bool, found: RawSample)
    requires Ascending(all) && k < |all| && ReplacedSoFar(m, all, k, e, inserted, replaced, found)
    ensures !inserted ==> !replaced
    ensures inserted ==> ReplacedSoFar(m + [all[k]], all, k + 1, e, true, replaced, found)
    ensures !inserted && e.timestamp < all[k].timestamp ==>
              ReplacedSoFar((m + [e]) + [all[k]], all, k + 1, e, true, false, found)
    ensures !inserted && e.timestamp == all[k].timestamp ==>
              ReplacedSoFar(m + [e], all, k + 1, e, true, true, all[k])
    ensures !inserted && e.timestamp > all[k].timestamp ==>
              ReplacedSoFar(m + [all[k]], all, k + 1, e, false, false, found)
  {
    hide Upsert;
    assert all[..k + 1] == all[..k] + [all[k]];
    if !inserted { UpsertAtEnd(all[..k], e); }
    if all[k].timestamp > e.timestamp { UpsertGrow(all[..k], all[k], e); }
  }

  lemma {:induction false} ReplaceEnd(m: seq<RawSample>, all: seq<RawSample>, e: RawSample,
                   inserted: bool, replaced: bool, found: RawSample)
    requires Ascending(all) && ReplacedSoFar(m, all, |all|, e, inserted, replaced, found)
    ensures Upsert(all, e) == if inserted then m else m + [e]
    ensures replaced <==> e.timestamp in ToMap(all)
    ensures replaced ==> found == ToMap(all)[e.timestamp]
  {
    hide Upsert;
    assert all[..|all|] == all;
    if !inserted { UpsertAtEnd(all, e); }
    FoundInMap(all, e.timestamp, found, replaced);
  }

  lemma FoundInMap<L>(s: seq<Sample<L>>, t: int, x: Sample<L>, found: bool)
    requires Ascending(s)
    requires if found then x in s && x.timestamp == t
             else forall i :: 0 <= i < |s| ==> s[i].timestamp != t
    ensures found <==> t in ToMap(s)
    ensures found ==> x == ToMap(s)[t]
  {
    hide ToMap;
    ToMapEntries(s);
    if found { ToMapAt(s, x); }
  }
}
