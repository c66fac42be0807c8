/** Edit distance with two rolling rows, and the masking pass built on it. */
module EditDistance {
  import opened Fractions

  type Text = seq<char>

  function Least3(a: int, b: int, c: int): int {
    var m := if b < a then b else a;
    if c < m then c else m
  }

  /** The recursive definition, on the last characters. */
  function Distance(a: Text, b: Text): (d: int)
    ensures d >= 0
    decreases |a| + |b|
  {
    if a == [] then |b|
    else if b == [] then |a|
    else
      var a', b' := a[..|a| - 1], b[..|b| - 1];
      Least3(Distance(a', b) + 1, Distance(a, b') + 1,
             Distance(a', b') + if a[|a| - 1] != b[|b| - 1] then 1 else 0)
  }

  // ---- the distance is the least cost of an edit script -----------------------------------------------

  datatype Edit = Keep | Substitute | Insert | Delete

  function Cost(script: seq<Edit>): int {
    if script == [] then 0 else Cost(script[..|script| - 1]) + if script[|script| - 1].Keep? then 0 else 1
  }

  /** The script turns `a` into `b`, character by character. */
  predicate Turns(script: seq<Edit>, a: Text, b: Text) {
    if script == [] then a == [] && b == []
    else
      var rest := script[..|script| - 1];
      match script[|script| - 1]
      case Keep => a != [] && b != [] && a[|a| - 1] == b[|b| - 1] && Turns(rest, a[..|a| - 1], b[..|b| - 1])
      case Substitute => a != [] && b != [] && Turns(rest, a[..|a| - 1], b[..|b| - 1])
      case Insert => b != [] && Turns(rest, a, b[..|b| - 1])
      case Delete => a != [] && Turns(rest, a[..|a| - 1], b)
  }

  lemma OneShorter(a: Text, b: Text)
    ensures a != [] ==> Distance(a, b) <= Distance(a[..|a| - 1], b) + 1
    ensures b != [] ==> Distance(a, b) <= Distance(a, b[..|b| - 1]) + 1
  {
    if b == [] && a != [] {
      assert Distance(a[..|a| - 1], b) == |a| - 1;
    }
  }

  /** No script is cheaper than the distance. */
  lemma {:induction false} ScriptsCostAtLeast(script: seq<Edit>, a: Text, b: Text)
    requires Turns(script, a, b)
    ensures Cost(script) >= Distance(a, b)
  {
    if script != [] {
      var rest := script[..|script| - 1];
      OneShorter(a, b);
      match script[|script| - 1]
      case Keep => ScriptsCostAtLeast(rest, a[..|a| - 1], b[..|b| - 1]);
      case Substitute => ScriptsCostAtLeast(rest, a[..|a| - 1], b[..|b| - 1]);
      case Insert => ScriptsCostAtLeast(rest, a, b[..|b| - 1]);
      case Delete => ScriptsCostAtLeast(rest, a[..|a| - 1], b);
    }
  }

  lemma Extended(script: seq<Edit>, e: Edit)
    ensures (script + [e])[..|script| + 1 - 1] == script && Cost(script + [e]) == Cost(script) + if e.Keep? then 0 else 1
  {
    assert (script + [e])[..|script|] == script;
  }

  /** Some script costs exactly the distance. */
  lemma {:induction false} ScriptExists(a: Text, b: Text) returns (script: seq<Edit>)
    ensures Turns(script, a, b) && Cost(script) == Distance(a, b)
    decreases |a| + |b|
  {
    if a == [] && b == [] {
      script := [];
    } else if a == [] {
      var rest := ScriptExists(a, b[..|b| - 1]);
      Extended(rest, Insert);
      script := rest + [Insert];
    } else if b == [] {
      var rest := ScriptExists(a[..|a| - 1], b);
      Extended(rest, Delete);
      script := rest + [Delete];
    } else {
      var a', b' := a[..|a| - 1], b[..|b| - 1];
      if Distance(a, b) == Distance(a', b) + 1 {
        var rest := ScriptExists(a', b);
        Extended(rest, Delete);
        script := rest + [Delete];
      } else if Distance(a, b) == Distance(a, b') + 1 {
        var rest := ScriptExists(a, b');
        Extended(rest, Insert);
        script := rest + [Insert];
      } else {
        var rest := ScriptExists(a', b');
        var e := if a[|a| - 1] == b[|b| - 1] then Keep else Substitute;
        Extended(rest, e);
        script := rest + [e];
      }
    }
  }

  // ---- two rolling rows -----------------------------------------------------------------------------------

  /** `row` holds the distances of one prefix of `a` to the prefixes of `b` up to `n`. */
  ghost predicate RowUpTo(row: array<int>, a: Text, b: Text, n: int)
    reads row
  {
    0 <= n <= |b| + 1 == row.Length && forall j :: 0 <= j < n ==> row[j] == Distance(a, b[..j])
  }

  method Levenshtein(a: Text, b: Text) returns (d: int)
    ensures d == Distance(a, b)
  {
    hide Distance, Least3;
    EmptyDistance(a, b);
    if |a| == 0 {
      return |b|;
    }
    if |b| == 0 {
      return |a|;
    }
    var prev := new int[|b| + 1];
    var curr := new int[|b| + 1];
    var k := 0;
    while k <= |b|
      modifies prev
      invariant 0 <= k <= |b| + 1 && forall j :: 0 <= j < k ==> prev[j] == j
    {
      prev[k] := k;
      k := k + 1;
    }
    FirstRow(prev, b);
    assert a[..0] == [];
    var i := 1;
    while i <= |a|
      invariant 1 <= i <= |a| + 1 && prev != curr && fresh(prev) && fresh(curr) && curr.Length == |b| + 1
      invariant RowUpTo(prev, a[..i - 1], b, |b| + 1)
    {
      FillRow(prev, curr, a, b, i);
      prev, curr := curr, prev;
      i := i + 1;
    }
    assert a[..i - 1] == a && b[..|b|] == b;
    return prev[|b|];
  }

  /** Fills one row from the row above it, left to right. */
  method FillRow(prev: array<int>, curr: array<int>, a: Text, b: Text, i: int)
    requires 1 <= i <= |a| && prev != curr && curr.Length == |b| + 1 && RowUpTo(prev, a[..i - 1], b, |b| + 1)
    modifies curr
    ensures RowUpTo(curr, a[..i], b, |b| + 1)
  {
    hide Distance;
    curr[0] := i;
    EmptyDistance(a[..i], b[..0]);
    var j := 1;
    while j <= |b|
      invariant 1 <= j <= |b| + 1 && RowUpTo(curr, a[..i], b, j)
    {
      var cost := 0;
      if a[i - 1] != b[j - 1] {
        cost := 1;
      }
      NextCell(a, b, i, j);
      curr[j] := Least3(prev[j] + 1, curr[j - 1] + 1, prev[j - 1] + cost);
      j := j + 1;
    }
  }

  lemma EmptyDistance(a: Text, b: Text)
    ensures a == [] ==> Distance(a, b) == |b|
    ensures b == [] ==> Distance(a, b) == |a|
  {
  }

  lemma FirstRow(row: array<int>, b: Text)
    requires row.Length == |b| + 1 && forall j :: 0 <= j <= |b| ==> row[j] == j
    ensures RowUpTo(row, [], b, |b| + 1)
  {
    forall j | 0 <= j <= |b| ensures Distance([], b[..j]) == j {
      EmptyDistance([], b[..j]);
    }
  }

  lemma {:induction false} NextCell(a: Text, b: Text, i: int, j: int)
    requires 1 <= i <= |a| && 1 <= j <= |b|
    ensures Distance(a[..i], b[..j]) ==
            Least3(Distance(a[..i - 1], b[..j]) + 1, Distance(a[..i], b[..j - 1]) + 1,
                   Distance(a[..i - 1], b[..j - 1]) + if a[i - 1] != b[j - 1] then 1 else 0)
  {
    hide Distance;
    DistanceUnfolds(a[..i], b[..j]);
    assert a[..i][..i - 1] == a[..i - 1] && b[..j][..j - 1] == b[..j - 1];
  }

  lemma {:induction false} DistanceUnfolds(a: Text, b: Text)
    requires a != [] && b != []
    ensures var x, y := a[..|a| - 1], b[..|b| - 1];
            Distance(a, b) == Least3(Distance(x, b) + 1, Distance(a, y) + 1,
                                     Distance(x, y) + if a[|a| - 1] != b[|b| - 1] then 1 else 0)
  {
  }

  // ---- what the distance means ------------------------------------------------------------------------------

  lemma {:induction false} DistanceToItself(a: Text)
    ensures Distance(a, a) == 0
  {
    if a != [] {
      DistanceToItself(a[..|a| - 1]);
    }
  }

  /** Only equal texts are at distance zero. */
  lemma {:induction false} ZeroIffEqual(a: Text, b: Text)
    ensures Distance(a, b) == 0 <==> a == b
    decreases |a|
  {
    DistanceToItself(a);
    if a != [] && b != [] {
      ZeroIffEqual(a[..|a| - 1], b[..|b| - 1]);
      assert a == a[..|a| - 1] + [a[|a| - 1]] && b == b[..|b| - 1] + [b[|b| - 1]];
    }
  }

  lemma {:induction false} Symmetric(a: Text, b: Text)
    ensures Distance(a, b) == Distance(b, a)
    decreases |a| + |b|
  {
    if a != [] && b != [] {
      Symmetric(a[..|a| - 1], b);
      Symmetric(a, b[..|b| - 1]);
      Symmetric(a[..|a| - 1], b[..|b| - 1]);
    }
  }

  /** The distance lies between the difference of the lengths and the longer length. */
  lemma {:induction false} DistanceBounds(a: Text, b: Text)
    ensures |a| - |b| <= Distance(a, b) && |b| - |a| <= Distance(a, b)
    ensures Distance(a, b) <= if |a| > |b| then |a| else |b|
    decreases |a| + |b|
  {
    if a != [] && b != [] {
      DistanceBounds(a[..|a| - 1], b);
      DistanceBounds(a, b[..|b| - 1]);
      DistanceBounds(a[..|a| - 1], b[..|b| - 1]);
    }
  }

  function Longer(a: Text, b: Text): int {
    if |b| > |a| then |b| else |a|
  }

  function SimilarityOf(a: Text, b: Text): real {
    if a == b || Longer(a, b) == 0 then 1.0 else 1.0 - Distance(a, b) as real / Longer(a, b) as real
  }

  method Similarity(a: Text, b: Text) returns (sim: real)
    ensures sim == SimilarityOf(a, b)
  {
    hide Distance;
    if a == b {
      return 1.0;
    }
    var dist := Levenshtein(a, b);
    var maxLen := |a|;
    if |b| > maxLen {
      maxLen := |b|;
    }
    if maxLen == 0 {
      return 1.0;
    }
    return 1.0 - dist as real / maxLen as real;
  }

  /** Similarity is a fraction, and one for equal texts only. */
  lemma SimilarityRange(a: Text, b: Text)
    ensures 0.0 <= SimilarityOf(a, b) <= 1.0
    ensures SimilarityOf(a, b) == 1.0 <==> a == b
  {
    hide Distance;
    DistanceBounds(a, b);
    ZeroIffEqual(a, b);
    if a != b && Longer(a, b) != 0 {
      FractionOf(Distance(a, b), Longer(a, b));
    }
  }

  /** The share of the longer length by which two texts differ. */
  lemma SimilarityIsShare(a: Text, b: Text)
    ensures var longer := if |b| > |a| then |b| else |a|;
            (1.0 - SimilarityOf(a, b)) * (longer as real) == Distance(a, b) as real
  {
    hide Distance;
    ZeroIffEqual(a, b);
    DistanceBounds(a, b);
    if a != b && Longer(a, b) != 0 {
      Division(Distance(a, b) as real, Longer(a, b) as real);
    }
  }

  lemma FractionOf(n: int, d: int)
    requires 0 <= n <= d && d > 0
    ensures 0.0 <= n as real / d as real <= 1.0
    ensures n as real / d as real == 0.0 <==> n == 0
  {
    Fraction(n as real, n as real, d as real);
    Division(n as real, d as real);
  }

  // ---- masking ------------------------------------------------------------------------------------------------

  /** The window at `i` is close enough to the word: its distance is at most the share of the length
      that the threshold leaves. */
  predicate Hits(text: Text, w: Text, i: int, threshold: real) {
    0 <= i && w != [] && i + |w| <= |text|
    && Distance(text[i..i + |w|], w) as real <= (1.0 - threshold) * (|w| as real)
  }

  lemma SimilarEnoughIff(window: Text, w: Text, threshold: real)
    requires w != [] && |window| == |w|
    ensures SimilarityOf(window, w) >= threshold <==> Distance(window, w) as real <= (1.0 - threshold) * (|w| as real)
  {
    hide Distance;
    SimilarityIsShare(window, w);
    ShareIff(SimilarityOf(window, w), Distance(window, w) as real, |w| as real, threshold);
  }

  lemma ShareIff(sim: real, distance: real, n: real, threshold: real)
    requires n > 0.0 && (1.0 - sim) * n == distance
    ensures sim >= threshold <==> distance <= (1.0 - threshold) * n
  {
    RestOf(sim, n);
    RestOf(threshold, n);
    var d := sim - threshold;
    assert d * n == sim * n - threshold * n;
    if d >= 0.0 {
      Scaled(d, n);
    } else {
      NegativeProduct(d, n);
    }
  }

  lemma RestOf(x: real, n: real)
    ensures (1.0 - x) * n == n - x * n
  {
  }

  ghost predicate Covered(text: Text, words: seq<Text>, n: int, k: int, threshold: real)
    requires 0 <= n <= |words|
  {
    exists j, i :: 0 <= j < n && Hits(text, words[j], i, threshold) && i <= k < i + |words[j]|
  }

  ghost predicate CoveredBy(text: Text, w: Text, limit: int, k: int, threshold: real) {
    exists i :: 0 <= i < limit && Hits(text, w, i, threshold) && i <= k < i + |w|
  }

  method AllMasked(toMask: array<bool>, lo: int, hi: int) returns (all: bool)
    requires 0 <= lo <= hi <= toMask.Length
    ensures all <==> forall k :: lo <= k < hi ==> toMask[k]
  {
    var k := lo;
    while k < hi
      invariant lo <= k <= hi && forall j :: lo <= j < k ==> toMask[j]
    {
      if !toMask[k] {
        return false;
      }
      k := k + 1;
    }
    return true;
  }

  method MaskRange(toMask: array<bool>, lo: int, hi: int)
    requires 0 <= lo <= hi <= toMask.Length
    modifies toMask
    ensures forall k :: 0 <= k < toMask.Length ==> (toMask[k] <==> old(toMask[k]) || lo <= k < hi)
  {
    var k := lo;
    while k < hi
      invariant lo <= k <= hi
      invariant forall j :: 0 <= j < toMask.Length ==> (toMask[j] <==> old(toMask[j]) || lo <= j < k)
    {
      toMask[k] := true;
      k := k + 1;
    }
  }

  /** Slides a window of the word's length over the text. */
  method MaskWord(text: Text, w: Text, threshold: real, toMask: array<bool>)
    requires toMask.Length == |text|
    modifies toMask
    ensures forall k :: 0 <= k < |text| ==> (toMask[k] <==> old(toMask[k]) || CoveredBy(text, w, |text|, k, threshold))
  {
    hide SimilarityOf, Distance;
    if |w| == 0 || |w| > |text| {
      return;
    }
    var i := 0;
    while i <= |text| - |w|
      invariant 0 <= i <= |text| - |w| + 1
      invariant forall k :: 0 <= k < |text| ==> (toMask[k] <==> old(toMask[k]) || CoveredBy(text, w, i, k, threshold))
    {
      var done := AllMasked(toMask, i, i + |w|);
      WindowMoves(text, w, i, threshold);
      if !done {
        var sim := Similarity(text[i..i + |w|], w);
        SimilarEnoughIff(text[i..i + |w|], w, threshold);
        if sim >= threshold {
          MaskRange(toMask, i, i + |w|);
        }
      }
      i := i + 1;
    }
    WindowsEnd(text, w, i, threshold);
  }

  lemma WindowMoves(text: Text, w: Text, i: int, threshold: real)
    requires 0 <= i
    ensures forall k :: CoveredBy(text, w, i + 1, k, threshold) <==>
              CoveredBy(text, w, i, k, threshold) || (Hits(text, w, i, threshold) && i <= k < i + |w|)
  {
    hide Hits;
    forall k ensures CoveredBy(text, w, i + 1, k, threshold) <==>
                       CoveredBy(text, w, i, k, threshold) || (Hits(text, w, i, threshold) && i <= k < i + |w|)
    {
      if CoveredBy(text, w, i + 1, k, threshold) {
        var m :| 0 <= m < i + 1 && Hits(text, w, m, threshold) && m <= k < m + |w|;
        assert m == i || CoveredBy(text, w, i, k, threshold);
      }
    }
  }

  lemma WindowsEnd(text: Text, w: Text, i: int, threshold: real)
    requires w != [] && i > |text| - |w| && i >= 0
    ensures forall k :: CoveredBy(text, w, |text|, k, threshold) <==> CoveredBy(text, w, i, k, threshold)
  {
    hide Distance;
    forall k ensures CoveredBy(text, w, |text|, k, threshold) <==> CoveredBy(text, w, i, k, threshold) {
      if CoveredBy(text, w, |text|, k, threshold) {
        var m :| 0 <= m < |text| && Hits(text, w, m, threshold) && m <= k < m + |w|;
        assert m < i;
      }
      if CoveredBy(text, w, i, k, threshold) {
        var m :| 0 <= m < i && Hits(text, w, m, threshold) && m <= k < m + |w|;
        assert m < |text|;
      }
    }
  }

  /** The masking pass marks exactly the characters of windows that are close to some word. */
  method MarkWords(text: Text, words: seq<Text>, threshold: real) returns (toMask: array<bool>)
    ensures fresh(toMask) && toMask.Length == |text|
    ensures forall k :: 0 <= k < |text| ==> (toMask[k] <==> Covered(text, words, |words|, k, threshold))
  {
    hide Hits, CoveredBy;
    toMask := new bool[|text|](_ => false);
    var j := 0;
    while j < |words|
      invariant 0 <= j <= |words|
      invariant forall k :: 0 <= k < |text| ==> (toMask[k] <==> Covered(text, words, j, k, threshold))
    {
      NextWord(text, words, j, threshold);
      MaskWord(text, words[j], threshold, toMask);
      j := j + 1;
    }
  }

  lemma NextWord(text: Text, words: seq<Text>, j: int, threshold: real)
    requires 0 <= j < |words|
    ensures forall k :: Covered(text, words, j + 1, k, threshold) <==>
              Covered(text, words, j, k, threshold) || CoveredBy(text, words[j], |text|, k, threshold)
  {
    hide Distance;
    forall k ensures Covered(text, words, j + 1, k, threshold) <==>
                       Covered(text, words, j, k, threshold) || CoveredBy(text, words[j], |text|, k, threshold)
    {
      if Covered(text, words, j + 1, k, threshold) {
        var m, i :| 0 <= m < j + 1 && Hits(text, words[m], i, threshold) && i <= k < i + |words[m]|;
        assert m == j ==> CoveredBy(text, words[j], |text|, k, threshold);
      }
      if CoveredBy(text, words[j], |text|, k, threshold) {
        var i :| 0 <= i < |text| && Hits(text, words[j], i, threshold) && i <= k < i + |words[j]|;
      }
    }
  }

  /** Every exact occurrence of a word is fully marked, whatever else is. */
  lemma OccurrenceMarked(text: Text, words: seq<Text>, threshold: real, j: int, i: int, k: int)
    requires threshold <= 1.0 && 0 <= j < |words| && words[j] != []
    requires 0 <= i && i + |words[j]| <= |text| && text[i..i + |words[j]|] == words[j] && i <= k < i + |words[j]|
    ensures Covered(text, words, |words|, k, threshold)
  {
    hide Distance;
    ZeroIffEqual(words[j], words[j]);
    Scaled(1.0 - threshold, |words[j]| as real);
    assert Hits(text, words[j], i, threshold);
  }

  /** With the strictest threshold only exact occurrences are marked. */
  lemma StrictMarksOccurrences(text: Text, words: seq<Text>, k: int)
    ensures Covered(text, words, |words|, k, 1.0) <==>
            exists j, i :: 0 <= j < |words| && Occurs(text, words[j], i) && i <= k < i + |words[j]|
  {
    hide Distance;
    forall j, i | 0 <= j < |words| ensures Hits(text, words[j], i, 1.0) <==> Occurs(text, words[j], i) {
      if 0 <= i && words[j] != [] && i + |words[j]| <= |text| {
        ZeroIffEqual(text[i..i + |words[j]|], words[j]);
      }
    }
    if Covered(text, words, |words|, k, 1.0) {
      var j, i :| 0 <= j < |words| && Hits(text, words[j], i, 1.0) && i <= k < i + |words[j]|;
      assert Occurs(text, words[j], i);
    }
  }

  predicate Occurs(text: Text, w: Text, i: int) {
    0 <= i && w != [] && i + |w| <= |text| && text[i..i + |w|] == w
  }
}
