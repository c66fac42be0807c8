/** Strictly time-ordered sample lists and the last-writer-wins map they stand for. */
module Timeline {
  import opened Words

  datatype Sample<L> = Sample(timestamp: int64, value: uint64, labels: L)

  ghost predicate Ascending<L>(s: seq<Sample<L>>) {
    forall i, j :: 0 <= i < j < |s| ==> s[i].timestamp < s[j].timestamp
  }

  /** The samples strictly before `t`, and the samples from `t` on. */
  function Before<L>(s: seq<Sample<L>>, t: int): seq<Sample<L>> {
    if s == [] then []
    else
      var rest := Before(s[..|s| - 1], t);
      if s[|s| - 1].timestamp < t then rest + [s[|s| - 1]] else rest
  }

  function From<L>(s: seq<Sample<L>>, t: int): seq<Sample<L>> {
    if s == [] then []
    else
      var rest := From(s[..|s| - 1], t);
      if s[|s| - 1].timestamp < t then rest else rest + [s[|s| - 1]]
  }

  /** Last writer wins: the sample replaces whatever had its timestamp. */
  function Upsert<L>(s: seq<Sample<L>>, e: Sample<L>): seq<Sample<L>> {
    Before(s, e.timestamp) + [e] + From(s, e.timestamp + 1)
  }

  function UpsertAll<L>(s: seq<Sample<L>>, es: seq<Sample<L>>): seq<Sample<L>> {
    if es == [] then s else Upsert(UpsertAll(s, es[..|es| - 1]), es[|es| - 1])
  }

  /** The last-writer-wins map: later list entries overwrite earlier ones. */
  function ToMap<L>(s: seq<Sample<L>>): map<int, Sample<L>> {
    if s == [] then map[] else ToMap(s[..|s| - 1])[s[|s| - 1].timestamp := s[|s| - 1]]
  }

  ghost predicate Splits<L>(s: seq<Sample<L>>, t: int, cut: int) {
    && 0 <= cut <= |s|
    && (forall i :: 0 <= i < cut ==> s[i].timestamp < t)
    && (forall i :: cut <= i < |s| ==> s[i].timestamp >= t)
  }

  lemma {:induction false} AllBefore<L>(s: seq<Sample<L>>, t: int)
    requires forall i :: 0 <= i < |s| ==> s[i].timestamp < t
    ensures Before(s, t) == s && From(s, t) == []
  {
    if s != [] {
      AllBefore(s[..|s| - 1], t);
      assert s == s[..|s| - 1] + [s[|s| - 1]];
    }
  }

  lemma {:induction false} AllFrom<L>(s: seq<Sample<L>>, t: int)
    requires forall i :: 0 <= i < |s| ==> s[i].timestamp >= t
    ensures Before(s, t) == [] && From(s, t) == s
  {
    if s != [] {
      AllFrom(s[..|s| - 1], t);
      assert s == s[..|s| - 1] + [s[|s| - 1]];
    }
  }

  lemma {:induction false} FilterConcat<L>(a: seq<Sample<L>>, b: seq<Sample<L>>, t: int)
    ensures Before(a + b, t) == Before(a, t) + Before(b, t)
    ensures From(a + b, t) == From(a, t) + From(b, t)
  {
    if b == [] {
      assert a + b == a;
    } else {
      var init := b[..|b| - 1];
      FilterConcat(a, init, t);
      assert (a + b)[..|a + b| - 1] == a + init;
    }
  }

  lemma FromGrow<L>(s: seq<Sample<L>>, i: int, t: int)
    requires 0 <= i < |s|
    ensures From(s[..i + 1], t) == if s[i].timestamp < t then From(s[..i], t) else From(s[..i], t) + [s[i]]
  {
    assert s[..i + 1][..i] == s[..i];
  }

  lemma CutAt<L>(s: seq<Sample<L>>, t: int, cut: int)
    requires Splits(s, t, cut)
    ensures Before(s, t) == s[..cut] && From(s, t) == s[cut..]
  {
    hide Before, From;
    assert s == s[..cut] + s[cut..];
    AllBefore(s[..cut], t);
    AllFrom(s[cut..], t);
    FilterConcat(s[..cut], s[cut..], t);
  }

  lemma {:induction false} FindCut<L>(s: seq<Sample<L>>, t: int) returns (cut: int)
    requires Ascending(s)
    ensures Splits(s, t, cut)
    ensures Before(s, t) == s[..cut] && From(s, t) == s[cut..]
  {
    cut := 0;
    while cut < |s| && s[cut].timestamp < t
      invariant 0 <= cut <= |s|
      invariant forall i :: 0 <= i < cut ==> s[i].timestamp < t
    {
      cut := cut + 1;
    }
    CutAt(s, t, cut);
  }

  // ---- meaning as a map ------------------------------------------------------------------

  lemma {:induction false} ToMapEntries<L>(s: seq<Sample<L>>)
    ensures forall t :: t in ToMap(s) ==> ToMap(s)[t].timestamp == t && ToMap(s)[t] in s
    ensures forall x :: x in s ==> x.timestamp in ToMap(s)
  {
    if s != [] {
      ToMapEntries(s[..|s| - 1]);
      assert s == s[..|s| - 1] + [s[|s| - 1]];
    }
  }

  lemma ToMapAt<L>(s: seq<Sample<L>>, x: Sample<L>)
    requires Ascending(s) && x in s
    ensures x.timestamp in ToMap(s) && ToMap(s)[x.timestamp] == x
  {
    ToMapEntries(s);
    var y := ToMap(s)[x.timestamp];
    assert y in s && y.timestamp == x.timestamp;
  }

  lemma {:induction false} ToMapConcat<L>(a: seq<Sample<L>>, b: seq<Sample<L>>)
    ensures ToMap(a + b) == ToMap(a) + ToMap(b)
  {
    if b == [] {
      assert a + b == a;
    } else {
      assert (a + b)[..|a + b| - 1] == a + b[..|b| - 1];
      ToMapConcat(a, b[..|b| - 1]);
    }
  }

  lemma MapKeysBelow<L>(s: seq<Sample<L>>, t: int)
    requires forall i :: 0 <= i < |s| ==> s[i].timestamp < t
    ensures forall k :: k in ToMap(s) ==> k < t
  {
    ToMapEntries(s);
  }

  lemma MapKeysFrom<L>(s: seq<Sample<L>>, t: int)
    requires forall i :: 0 <= i < |s| ==> s[i].timestamp >= t
    ensures forall k :: k in ToMap(s) ==> k >= t
  {
    ToMapEntries(s);
  }

  lemma RemoveAdded<V>(m: map<int, V>, k: int, v: V)
    requires k !in m
    ensures m[k := v] - {k} == m
  {
  }

  lemma LastIsGreatest<L>(s: seq<Sample<L>>)
    requires Ascending(s) && s != []
    ensures var last := s[|s| - 1];
            && last.timestamp in ToMap(s) && ToMap(s)[last.timestamp] == last
            && (forall t :: t in ToMap(s) ==> t <= last.timestamp)
            && Ascending(s[..|s| - 1])
            && ToMap(s[..|s| - 1]) == ToMap(s) - {last.timestamp}
  {
    var last := s[|s| - 1];
    MapKeysBelow(s[..|s| - 1], last.timestamp);
    RemoveAdded(ToMap(s[..|s| - 1]), last.timestamp, last);
  }

  /** A strictly ordered list is determined by its map. */
  lemma {:induction false} OrderedListUnique<L>(a: seq<Sample<L>>, b: seq<Sample<L>>)
    requires Ascending(a) && Ascending(b) && ToMap(a) == ToMap(b)
    ensures a == b
  {
    hide ToMap;
    ToMapEmpty<L>();
    if a == [] {
      if b != [] { LastIsGreatest(b); }
    } else if b == [] {
      LastIsGreatest(a);
    } else {
      LastIsGreatest(a);
      LastIsGreatest(b);
      OrderedListUnique(a[..|a| - 1], b[..|b| - 1]);
      assert a == a[..|a| - 1] + [a[|a| - 1]];
      assert b == b[..|b| - 1] + [b[|b| - 1]];
    }
  }

  lemma MapOfSplit<L>(s: seq<Sample<L>>, cut: int)
    requires Ascending(s) && 0 <= cut <= |s|
    ensures Ascending(s[..cut]) && Ascending(s[cut..])
    ensures ToMap(s) == ToMap(s[..cut]) + ToMap(s[cut..])
  {
    ToMapConcat(s[..cut], s[cut..]);
    assert s == s[..cut] + s[cut..];
  }

  /** Dropping old samples keeps exactly the map entries from the cutoff on. */
  lemma FromRestrictsMap<L>(s: seq<Sample<L>>, t: int)
    requires Ascending(s)
    ensures Ascending(From(s, t)) && Ascending(Before(s, t))
    ensures ToMap(From(s, t)) == map k | k in ToMap(s) && k >= t :: ToMap(s)[k]
    ensures ToMap(Before(s, t)) == map k | k in ToMap(s) && k < t :: ToMap(s)[k]
  {
    hide ToMap, Before, From;
    var cut := FindCut(s, t);
    MapOfSplit(s, cut);
    MapKeysBelow(s[..cut], t);
    MapKeysFrom(s[cut..], t);
    RestrictSum(ToMap(s), ToMap(s[..cut]), ToMap(s[cut..]), t);
  }

  lemma RestrictSum<V>(m: map<int, V>, below: map<int, V>, above: map<int, V>, t: int)
    requires m == below + above
    requires (forall k :: k in below ==> k < t) && (forall k :: k in above ==> k >= t)
    ensures above == map k | k in m && k >= t :: m[k]
    ensures below == map k | k in m && k < t :: m[k]
  {
  }

  lemma AscendingConcat<L>(a: seq<Sample<L>>, b: seq<Sample<L>>, t: int)
    requires Ascending(a) && Ascending(b)
    requires forall i :: 0 <= i < |a| ==> a[i].timestamp < t
    requires forall i :: 0 <= i < |b| ==> b[i].timestamp >= t
    ensures Ascending(a + b)
  {
  }

  lemma UpsertKeepsOrder<L>(s: seq<Sample<L>>, e: Sample<L>)
    requires Ascending(s)
    ensures Ascending(Upsert(s, e))
  {
    var lo := FindCut(s, e.timestamp);
    var hi := FindCut(s, e.timestamp + 1);
    assert Ascending([e]);
    AscendingConcat([e], s[hi..], e.timestamp + 1);
    AscendingConcat(s[..lo], [e] + s[hi..], e.timestamp);
    assert Upsert(s, e) == s[..lo] + ([e] + s[hi..]);
  }

  lemma ToMapEmpty<L>()
    ensures ToMap<L>([]) == map[]
  {
  }

  lemma ToMapSingle<L>(e: Sample<L>)
    ensures ToMap([e]) == map[e.timestamp := e]
  {
    assert [e][..0] == [];
  }

  lemma SpliceMap<V>(m: map<int, V>, below: map<int, V>, above: map<int, V>, t: int, v: V)
    requires below == map k | k in m && k < t :: m[k]
    requires above == map k | k in m && k >= t + 1 :: m[k]
    ensures (below + map[t := v]) + above == m[t := v]
  {
  }

  lemma UpsertUpdatesMap<L>(s: seq<Sample<L>>, e: Sample<L>)
    requires Ascending(s)
    ensures ToMap(Upsert(s, e)) == ToMap(s)[e.timestamp := e]
  {
    hide ToMap, Before, From;
    var t: int := e.timestamp;
    FromRestrictsMap(s, t);
    FromRestrictsMap(s, t + 1);
    ToMapConcat(Before(s, t) + [e], From(s, t + 1));
    ToMapConcat(Before(s, t), [e]);
    ToMapSingle(e);
    SpliceMap(ToMap(s), ToMap(Before(s, t)), ToMap(From(s, t + 1)), t, e);
  }

  lemma {:induction false} UpsertAllKeepsOrder<L>(s: seq<Sample<L>>, es: seq<Sample<L>>)
    requires Ascending(s)
    ensures Ascending(UpsertAll(s, es))
    ensures ToMap(UpsertAll(s, es)) == ToMap(s) + ToMap(es)
  {
    if es != [] {
      UpsertAllKeepsOrder(s, es[..|es| - 1]);
      UpsertKeepsOrder(UpsertAll(s, es[..|es| - 1]), es[|es| - 1]);
      UpsertUpdatesMap(UpsertAll(s, es[..|es| - 1]), es[|es| - 1]);
    }
  }

  /** Appending later samples is the special case where nothing overlaps. */
  lemma AppendIsUpsertAll<L>(s: seq<Sample<L>>, es: seq<Sample<L>>)
    requires Ascending(s) && Ascending(s + es)
    ensures UpsertAll(s, es) == s + es
  {
    UpsertAllKeepsOrder(s, es);
    ToMapConcat(s, es);
    OrderedListUnique(UpsertAll(s, es), s + es);
  }

  lemma UpsertGrow<L>(s: seq<Sample<L>>, x: Sample<L>, e: Sample<L>)
    requires x.timestamp > e.timestamp
    ensures Upsert(s + [x], e) == Upsert(s, e) + [x]
  {
    assert (s + [x])[..|s|] == s;
  }

  lemma UpsertAtEnd<L>(s: seq<Sample<L>>, e: Sample<L>)
    requires forall i :: 0 <= i < |s| ==> s[i].timestamp < e.timestamp
    ensures Upsert(s, e) == s + [e]
    ensures forall x: Sample<L> {:trigger s + [x]} :: x.timestamp == e.timestamp ==> Upsert(s + [x], e) == s + [e]
  {
    AllBefore(s, e.timestamp);
    AllBefore(s, e.timestamp + 1);
    forall x: Sample<L> {:trigger s + [x]} | x.timestamp == e.timestamp ensures Upsert(s + [x], e) == s + [e] {
      assert (s + [x])[..|s|] == s;
    }
  }

  // ---- merging two ordered lists -----------------------------------------------------------

  /** `m` holds the first `i` old and first `j` new samples, and precedes the rest of both. */
  ghost predicate MergedSoFar<L>(m: seq<Sample<L>>, older: seq<Sample<L>>, i: int, newer: seq<Sample<L>>, j: int) {
    && 0 <= i <= |older| && 0 <= j <= |newer|
    && Ascending(m)
    && ToMap(m) == ToMap(older[..i]) + ToMap(newer[..j])
    && (i < |older| ==> forall k :: 0 <= k < |m| ==> m[k].timestamp < older[i].timestamp)
    && (j < |newer| ==> forall k :: 0 <= k < |m| ==> m[k].timestamp < newer[j].timestamp)
  }

  lemma ToMapGrow<L>(s: seq<Sample<L>>, i: int)
    requires 0 <= i < |s|
    ensures ToMap(s[..i + 1]) == ToMap(s[..i])[s[i].timestamp := s[i]]
  {
    assert s[..i + 1][..i] == s[..i];
  }

  lemma ToMapPush<L>(s: seq<Sample<L>>, x: Sample<L>)
    ensures ToMap(s + [x]) == ToMap(s)[x.timestamp := x]
  {
    assert (s + [x])[..|s|] == s;
  }

  lemma MergeTakeNew<L>(m: seq<Sample<L>>, older: seq<Sample<L>>, i: int, newer: seq<Sample<L>>, j: int)
    requires Ascending(older) && Ascending(newer) && MergedSoFar(m, older, i, newer, j)
    requires j < |newer| && (i < |older| ==> newer[j].timestamp < older[i].timestamp)
    ensures MergedSoFar(m + [newer[j]], older, i, newer, j + 1)
  {
    hide ToMap;
    ToMapGrow(newer, j);
    ToMapPush(m, newer[j]);
  }

  lemma MergeTakeBoth<L>(m: seq<Sample<L>>, older: seq<Sample<L>>, i: int, newer: seq<Sample<L>>, j: int)
    requires Ascending(older) && Ascending(newer) && MergedSoFar(m, older, i, newer, j)
    requires i < |older| && j < |newer| && newer[j].timestamp == older[i].timestamp
    ensures MergedSoFar(m + [newer[j]], older, i + 1, newer, j + 1)
  {
    hide ToMap;
    ToMapGrow(newer, j);
    ToMapGrow(older, i);
    ToMapPush(m, newer[j]);
  }

  lemma MergeTakeOld<L>(m: seq<Sample<L>>, older: seq<Sample<L>>, i: int, newer: seq<Sample<L>>, j: int)
    requires Ascending(older) && Ascending(newer) && MergedSoFar(m, older, i, newer, j)
    requires i < |older| && (j < |newer| ==> older[i].timestamp < newer[j].timestamp)
    ensures MergedSoFar(m + [older[i]], older, i + 1, newer, j)
  {
    hide ToMap;
    ToMapGrow(older, i);
    ToMapPush(m, older[i]);
    MapKeysBelow(m, older[i].timestamp);
    UpdateLeft(ToMap(older[..i]), ToMap(newer[..j]), older[i].timestamp, older[i]);
  }

  lemma UpdateLeft<V>(a: map<int, V>, b: map<int, V>, k: int, v: V)
    requires forall x :: x in a + b ==> x < k
    ensures (a + b)[k := v] == a[k := v] + b
  {
    forall x | x in b ensures x < k {
      assert x in a + b;
    }
  }

  lemma {:induction false} MergeDone<L>(m: seq<Sample<L>>, older: seq<Sample<L>>, newer: seq<Sample<L>>)
    requires Ascending(older) && Ascending(newer)
    requires MergedSoFar(m, older, |older|, newer, |newer|)
    ensures m == UpsertAll(older, newer)
  {
    hide ToMap;
    assert older[..|older|] == older && newer[..|newer|] == newer;
    UpsertAllKeepsOrder(older, newer);
    OrderedListUnique(m, UpsertAll(older, newer));
  }
}
