/** The table builder of the 4XM decoder: reading the frequencies, merging the two lightest live
    nodes in place until one is left or the arrays are full, and reading off the codes. */
module HuffmanTree {
  import opened Sums

  const SYMBOLS: nat := 257
  const NODES: nat := 512
  /** The weight no node reaches; it marks "nothing found yet" in the scan. */
  const HEAVIEST: nat := 256 * 256

  /** What the frequency reader delivers: one byte per symbol, and 1 for the end marker. */
  predicate ValidFrequencies(f: seq<nat>) {
    && |f| == SYMBOLS
    && (forall i :: 0 <= i < 256 ==> f[i] <= 255)
    && f[256] == 1
  }

  /** Number of symbols that take part in the code. */
  function Live(freq: seq<nat>): (n: nat)
    ensures n <= |freq|
  {
    if |freq| == 0 then 0
    else Live(freq[..|freq| - 1]) + if freq[|freq| - 1] > 0 then 1 else 0
  }

  lemma {:induction false} LiveUpdate(freq: seq<nat>, i: nat, x: nat)
    requires i < |freq|
    ensures Live(freq[i := x]) == Live(freq) - (if freq[i] > 0 then 1 else 0) + (if x > 0 then 1 else 0)
  {
    var n := |freq| - 1;
    if i == n {
      assert freq[i := x][..n] == freq[..n];
    } else {
      assert freq[i := x][..n] == freq[..n][i := x];
      LiveUpdate(freq[..n], i, x);
    }
  }

  /** The first of the lightest live nodes, or the length when no node is live. */
  function Lightest(freq: seq<nat>): (a: nat)
    ensures a <= |freq|
    ensures a < |freq| ==> freq[a] > 0
    ensures a < |freq| ==> forall k :: 0 <= k < |freq| && freq[k] > 0 ==> freq[a] <= freq[k]
    ensures a < |freq| ==> forall k :: 0 <= k < a && freq[k] > 0 ==> freq[a] < freq[k]
    ensures a == |freq| <==> forall k :: 0 <= k < |freq| ==> freq[k] == 0
  {
    if |freq| == 0 then 0
    else
      var n := |freq| - 1;
      var a := Lightest(freq[..n]);
      assert forall k :: 0 <= k < n ==> freq[..n][k] == freq[k];
      if freq[n] > 0 && (a == n || freq[n] < freq[a]) then n
      else if a == n then n + 1
      else a
  }

  /** The second pick: the first of the lightest live nodes other than the first pick. */
  function NextLightest(freq: seq<nat>): (b: nat)
    requires Lightest(freq) < |freq|
  {
    Lightest(freq[Lightest(freq) := 0])
  }

  lemma {:induction false} NoneLive(freq: seq<nat>)
    requires forall k :: 0 <= k < |freq| ==> freq[k] == 0
    ensures Live(freq) == 0
  {
    if |freq| > 0 {
      NoneLive(freq[..|freq| - 1]);
    }
  }

  lemma {:induction false} SomeLive(freq: seq<nat>, k: nat)
    requires k < |freq| && freq[k] > 0
    ensures Live(freq) > 0
  {
    LiveUpdate(freq, k, 0);
  }

  /** The two picks exist exactly when at least two nodes are live. */
  lemma PicksExist(freq: seq<nat>)
    ensures Live(freq) >= 2 <==> Lightest(freq) < |freq| && NextLightest(freq) < |freq|
  {
    var a := Lightest(freq);
    if a == |freq| {
      NoneLive(freq);
    } else {
      LiveUpdate(freq, a, 0);
      var rest := freq[a := 0];
      if Lightest(rest) == |freq| {
        NoneLive(rest);
      } else {
        SomeLive(rest, Lightest(rest));
      }
    }
  }

  /** Both picks at once: different live nodes, at most as heavy as every other live node. */
  lemma Picks(freq: seq<nat>) returns (a: nat, b: nat)
    requires Live(freq) >= 2
    ensures a == Lightest(freq) < |freq| && b == NextLightest(freq) < |freq| && a != b
    ensures 0 < freq[a] <= freq[b]
    ensures forall k :: 0 <= k < |freq| && k != a && freq[k] > 0 ==> freq[b] <= freq[k]
  {
    PicksExist(freq);
    a, b := Lightest(freq), NextLightest(freq);
    forall k | 0 <= k < |freq| && k != a && freq[k] > 0
      ensures freq[b] <= freq[k]
    {
      assert freq[a := 0][k] == freq[k];
    }
  }

  /** The pick is the only node with the two properties the scan establishes. */
  lemma LightestIs(freq: seq<nat>, a: nat)
    requires a < |freq| && freq[a] > 0
    requires forall k :: 0 <= k < |freq| && freq[k] > 0 ==> freq[a] <= freq[k] && (k < a ==> freq[a] < freq[k])
    ensures Lightest(freq) == a
  {
  }

  // ------------------------------------------------------------------ the merge loop

  /** The four arrays over the nodes made so far. `weight` keeps what `freq` held before a node
      was merged away; it is bookkeeping of the model. */
  datatype Forest = Forest(freq: seq<nat>, weight: seq<nat>, up: seq<int>, flag: seq<int>)

  predicate Sized(s: Forest) {
    SYMBOLS <= |s.freq| == |s.weight| == |s.up| == |s.flag| <= NODES
  }

  function Plant(f: seq<nat>): (s: Forest)
    requires |f| == SYMBOLS
    ensures Sized(s)
  {
    Forest(f, f, seq(SYMBOLS, _ => -1), seq(SYMBOLS, _ => 0))
  }

  /** The frequencies after one merge: the two lightest die, their sum is appended. */
  function MergeFreq(freq: seq<nat>): (r: seq<nat>)
    requires Live(freq) >= 2
    ensures |r| == |freq| + 1 && Live(r) == Live(freq) - 1
  {
    PicksExist(freq);
    var a, b := Lightest(freq), NextLightest(freq);
    assert a != b && freq[b] > 0;
    LiveUpdate(freq, a, 0);
    LiveUpdate(freq[a := 0], b, 0);
    var rest := freq[a := 0][b := 0];
    assert (rest + [freq[a] + freq[b]])[..|freq|] == rest;
    rest + [freq[a] + freq[b]]
  }

  function Merge(s: Forest): (r: Forest)
    requires Sized(s) && |s.freq| < NODES && Live(s.freq) >= 2
    ensures Sized(r) && |r.freq| == |s.freq| + 1
  {
    PicksExist(s.freq);
    var a, b, j := Lightest(s.freq), NextLightest(s.freq), |s.freq|;
    Forest(MergeFreq(s.freq), s.weight + [s.freq[a] + s.freq[b]],
           s.up[a := j][b := j] + [-1], s.flag[a := 0][b := 1] + [0])
  }

  function MergeAll(s: Forest): (r: Forest)
    requires Sized(s)
    ensures Sized(r) && (|r.freq| == NODES || Live(r.freq) < 2)
    decreases NODES - |s.freq|
  {
    if |s.freq| < NODES && Live(s.freq) >= 2 then MergeAll(Merge(s)) else s
  }

  function Build(f: seq<nat>): (r: Forest)
    requires |f| == SYMBOLS
    ensures Sized(r)
  {
    MergeAll(Plant(f))
  }

  /** Every node is a root, or was merged away into a later node. */
  predicate Upward(s: Forest) {
    forall i :: 0 <= i < |s.up| ==> s.up[i] == -1 || (i < s.up[i] < |s.up| && SYMBOLS <= s.up[i])
  }

  /** A root still carries its weight in `freq`; a merged node carries 0 there and had a weight. */
  predicate Marked(s: Forest)
    requires Sized(s)
  {
    && (forall i :: 0 <= i < |s.up| ==> s.freq[i] == if s.up[i] == -1 then s.weight[i] else 0)
    && (forall i :: 0 <= i < |s.up| && s.up[i] != -1 ==> s.weight[i] > 0)
    && (forall i :: SYMBOLS <= i < |s.up| ==> s.weight[i] > 0)
  }

  /** Node j was made from two nodes: the flag-0 child a and the flag-1 child b. */
  predicate MadeFrom(s: Forest, j: nat, a: nat, b: nat)
    requires Sized(s) && j < |s.up|
  {
    && a < j && b < j && a != b
    && s.up[a] == j && s.up[b] == j
    && s.flag[a] == 0 && s.flag[b] == 1
    && s.weight[j] == s.weight[a] + s.weight[b]
  }

  ghost predicate HasChildren(s: Forest, j: nat)
    requires Sized(s) && j < |s.up|
  {
    exists a: nat, b: nat :: MadeFrom(s, j, a, b)
  }

  /** Every inner node has two children, and no two children of a node carry the same flag. */
  ghost predicate Binary(s: Forest)
    requires Sized(s)
  {
    && (forall j: nat :: SYMBOLS <= j < |s.up| ==> HasChildren(s, j))
    && (forall i, k :: 0 <= i < |s.up| && 0 <= k < |s.up| && s.up[i] == s.up[k] && s.up[i] != -1 && i != k ==>
          s.flag[i] != s.flag[k])
    && (forall i :: 0 <= i < |s.up| && s.up[i] != -1 ==> s.flag[i] == 0 || s.flag[i] == 1)
  }

  /** What is merged later, or not at all, is at least as heavy as what was merged earlier. */
  predicate Ordered(s: Forest)
    requires Sized(s)
  {
    forall i, k :: 0 <= i < |s.up| && 0 <= k < |s.up| && s.up[i] != -1 && s.weight[k] > 0 && Outlives(s, k, i) ==>
      s.weight[i] <= s.weight[k]
  }

  predicate Outlives(s: Forest, k: nat, i: nat)
    requires k < |s.up| && i < |s.up|
  {
    s.up[k] == -1 || s.up[k] > s.up[i]
  }

  /** The facts every stage of the merge loop keeps. */
  ghost predicate Inv(f: seq<nat>, s: Forest) {
    && |f| == SYMBOLS && Sized(s) && s.weight[..SYMBOLS] == f
    && Upward(s) && Marked(s) && Binary(s) && Ordered(s)
  }

  lemma PlantInv(f: seq<nat>)
    requires |f| == SYMBOLS
    ensures Inv(f, Plant(f))
  {
  }

  /** One merge, index by index. */
  predicate Merged(s: Forest, r: Forest, a: nat, b: nat) {
    && Sized(s) && Sized(r) && |r.up| == |s.up| + 1 && a < |s.up| && b < |s.up| && a != b
    && (forall i :: 0 <= i < |s.up| ==> r.up[i] == if i == a || i == b then |s.up| else s.up[i])
    && (forall i :: 0 <= i < |s.up| ==> r.flag[i] == if i == a then 0 else if i == b then 1 else s.flag[i])
    && (forall i :: 0 <= i < |s.up| ==> r.weight[i] == s.weight[i])
    && (forall i :: 0 <= i < |s.up| ==> r.freq[i] == if i == a || i == b then 0 else s.freq[i])
    && r.up[|s.up|] == -1
    && r.weight[|s.up|] == r.freq[|s.up|] == s.freq[a] + s.freq[b]
  }

  lemma MergeMerges(s: Forest) returns (a: nat, b: nat)
    requires Sized(s) && |s.freq| < NODES && Live(s.freq) >= 2
    ensures Merged(s, Merge(s), a, b) && a == Lightest(s.freq) && b == NextLightest(s.freq)
    ensures 0 < s.freq[a] <= s.freq[b]
    ensures forall k :: 0 <= k < |s.freq| && k != a && s.freq[k] > 0 ==> s.freq[b] <= s.freq[k]
  {
    a, b := Picks(s.freq);
  }

  lemma BinaryKept(s: Forest, r: Forest, a: nat, b: nat)
    requires Merged(s, r, a, b) && Upward(s) && Marked(s) && Binary(s) && s.freq[a] > 0 && s.freq[b] > 0
    ensures Binary(r)
  {
    forall j: nat | SYMBOLS <= j < |r.up|
      ensures HasChildren(r, j)
    {
      if j < |s.up| {
        assert HasChildren(s, j);
        var x: nat, y: nat :| MadeFrom(s, j, x, y);
        assert MadeFrom(r, j, x, y);
      } else {
        assert MadeFrom(r, j, a, b);
      }
    }
  }

  lemma OrderedKept(s: Forest, r: Forest, a: nat, b: nat)
    requires Merged(s, r, a, b) && Upward(s) && Marked(s) && Ordered(s) && 0 < s.freq[a] <= s.freq[b]
    requires forall k :: 0 <= k < |s.freq| && k != a && s.freq[k] > 0 ==> s.freq[b] <= s.freq[k]
    ensures Ordered(r)
  {
    var n := |s.up|;
    forall i, k | 0 <= i < |r.up| && 0 <= k < |r.up| && r.up[i] != -1 && r.weight[k] > 0 && Outlives(r, k, i)
      ensures r.weight[i] <= r.weight[k]
    {
      if s.up[i] != -1 {
        assert Outlives(s, a, i) && Outlives(s, b, i);
        if k < n {
          assert Outlives(s, k, i);
        }
      }
    }
  }

  lemma BaseKept(s: Forest, r: Forest, a: nat, b: nat)
    requires Merged(s, r, a, b) && Upward(s) && Marked(s) && s.freq[a] > 0 && s.freq[b] > 0
    ensures Upward(r) && Marked(r) && r.weight[..SYMBOLS] == s.weight[..SYMBOLS]
  {
  }

  lemma MergeInv(f: seq<nat>, s: Forest)
    requires Inv(f, s) && |s.freq| < NODES && Live(s.freq) >= 2
    ensures Inv(f, Merge(s))
  {
    var a, b := MergeMerges(s);
    var r := Merge(s);
    hide Merge, Live, Lightest, NextLightest;
    BinaryKept(s, r, a, b);
    OrderedKept(s, r, a, b);
    BaseKept(s, r, a, b);
    hide Binary, Ordered;
  }

  lemma {:induction false} MergeAllInv(f: seq<nat>, s: Forest)
    requires Inv(f, s)
    ensures Inv(f, MergeAll(s))
    decreases NODES - |s.freq|
  {
    if |s.freq| < NODES && Live(s.freq) >= 2 {
      MergeInv(f, s);
      MergeAllInv(f, Merge(s));
    }
  }

  lemma BuildInv(f: seq<nat>)
    requires |f| == SYMBOLS
    ensures Inv(f, Build(f))
  {
    PlantInv(f);
    MergeAllInv(f, Plant(f));
  }

  // ------------------------------------------------------------------ conservation of weight

  lemma MergeConservesWeight(freq: seq<nat>)
    requires Live(freq) >= 2
    ensures Sum(MergeFreq(freq)) == Sum(freq)
  {
    var a, b := Picks(freq);
    SumUpdate(freq, a, 0);
    SumUpdate(freq[a := 0], b, 0);
    SumSnoc(freq[a := 0][b := 0], freq[a] + freq[b]);
  }

  lemma {:induction false} MergeAllConservesWeight(s: Forest)
    requires Sized(s)
    ensures Sum(MergeAll(s).freq) == Sum(s.freq)
    decreases NODES - |s.freq|
  {
    if |s.freq| < NODES && Live(s.freq) >= 2 {
      MergeConservesWeight(s.freq);
      MergeAllConservesWeight(Merge(s));
    }
  }

  /** 256 bytes and the end marker: no table weighs more than this. */
  const MOST_WEIGHT: nat := 255 * 256 + 1

  lemma TotalWeight(f: seq<nat>)
    requires ValidFrequencies(f)
    ensures Sum(f) <= MOST_WEIGHT
  {
    var bytes := seq(256, _ => 255);
    SumMonotone(f[..256], bytes);
    SumConstant(bytes, 255);
  }

  // ------------------------------------------------------------------ the methods

  /** The inner scan: the running two lightest among the nodes before j. */
  method FindLightestTwo(frequency: array<int>, j: nat, ghost freq: seq<nat>)
    returns (minFreq0: int, minFreq1: int, smallest0: nat, smallest1: nat)
    requires j == |freq| <= frequency.Length
    requires forall i :: 0 <= i < j ==> frequency[i] == freq[i] < HEAVIEST
    ensures minFreq1 == HEAVIEST <==> Live(freq) < 2
    ensures minFreq1 != HEAVIEST ==>
              && smallest0 == Lightest(freq) < j && smallest1 == NextLightest(freq) < j
              && minFreq0 == frequency[smallest0] && minFreq1 == frequency[smallest1]
  {
    minFreq0, minFreq1, smallest0, smallest1 := HEAVIEST, HEAVIEST, 0, 0;
    for i := 0 to j
      invariant 0 < minFreq0 <= minFreq1 <= HEAVIEST
      invariant minFreq0 < HEAVIEST ==> smallest0 < i && frequency[smallest0] == minFreq0
      invariant minFreq1 < HEAVIEST ==> smallest1 < i && smallest1 != smallest0 && frequency[smallest1] == minFreq1
      invariant minFreq1 < HEAVIEST ==> minFreq0 < HEAVIEST
      invariant forall k :: 0 <= k < i && frequency[k] > 0 ==>
                  minFreq0 <= frequency[k] && (k < smallest0 ==> minFreq0 < frequency[k])
      invariant forall k :: 0 <= k < i && frequency[k] > 0 && k != smallest0 ==>
                  minFreq1 <= frequency[k] && (k < smallest1 ==> minFreq1 < frequency[k])
    {
      if frequency[i] == 0 {
        continue;
      }
      if frequency[i] < minFreq1 {
        if frequency[i] < minFreq0 {
          minFreq1 := minFreq0;
          smallest1 := smallest0;
          minFreq0 := frequency[i];
          smallest0 := i;
        } else {
          minFreq1 := frequency[i];
          smallest1 := i;
        }
      }
    }
    PicksExist(freq);
    if minFreq0 < HEAVIEST {
      LightestIs(freq, smallest0);
      if minFreq1 < HEAVIEST {
        LightestIs(freq[smallest0 := 0], smallest1);
      }
    }
  }

  /** The arrays hold the forest: nodes not yet made are unlinked and weightless, and a flag is
      written exactly when its node is merged away. */
  ghost predicate Holds(frequency: array<int>, flag: array<int>, up: array<int>, s: Forest)
    reads frequency, flag, up
  {
    && Sized(s)
    && frequency.Length == flag.Length == up.Length == NODES
    && (forall i :: 0 <= i < |s.up| ==> frequency[i] == s.freq[i] && up[i] == s.up[i])
    && (forall i :: |s.up| <= i < NODES ==> up[i] == -1 && frequency[i] == 0)
    && (forall i :: 0 <= i < |s.up| && s.up[i] != -1 ==> flag[i] == s.flag[i])
  }

  /** One turn of the merge loop links the two lightest under the new node j. */
  method Link(frequency: array<int>, flag: array<int>, up: array<int>, j: nat, a: nat, b: nat,
              ghost s: Forest, ghost r: Forest)
    requires Holds(frequency, flag, up, s) && j == |s.freq| < NODES
    requires frequency != flag && frequency != up && flag != up
    requires Merged(s, r, a, b) && Upward(s) && Marked(s)
    requires s.freq[a] > 0 && s.freq[b] > 0
    modifies frequency, flag, up
    ensures Holds(frequency, flag, up, r)
  {
    frequency[j] := frequency[a] + frequency[b];
    flag[a] := 0;
    flag[b] := 1;
    up[a] := j;
    up[b] := j;
    frequency[a] := 0;
    frequency[b] := 0;
  }

  /** A stage of the loop on the way from f to its finished forest. */
  ghost predicate Stage(f: seq<nat>, s: Forest) {
    && |f| == SYMBOLS && Sized(s) && Upward(s) && Marked(s)
    && Sum(s.freq) == Sum(f)
    && MergeAll(s) == Build(f)
  }

  lemma NextStage(f: seq<nat>, s: Forest) returns (a: nat, b: nat, r: Forest)
    requires Stage(f, s) && |s.freq| < NODES && Live(s.freq) >= 2
    ensures Stage(f, r) && Merged(s, r, a, b)
    ensures a == Lightest(s.freq) && b == NextLightest(s.freq) && s.freq[a] > 0 && s.freq[b] > 0
  {
    a, b := MergeMerges(s);
    r := Merge(s);
    MergeConservesWeight(s.freq);
    assert MergeAll(s) == MergeAll(r) && r.freq == MergeFreq(s.freq);
    hide Merge, MergeAll, MergeFreq, Live, Lightest, NextLightest, Sum, Build;
    BaseKept(s, r, a, b);
    hide Merged, Upward, Marked;
  }

  /** The merge loop. */
  method MergeLoop(frequency: array<int>, flag: array<int>, up: array<int>, ghost f: seq<nat>)
    requires frequency.Length == flag.Length == up.Length == NODES
    requires frequency != flag && frequency != up && flag != up
    requires ValidFrequencies(f) && frequency[..SYMBOLS] == f
    requires forall i :: SYMBOLS <= i < NODES ==> frequency[i] == 0
    requires forall i :: 0 <= i < NODES ==> up[i] == -1
    modifies frequency, flag, up
    ensures Holds(frequency, flag, up, Build(f))
  {
    ghost var s := Plant(f);
    var j := SYMBOLS;
    while j < NODES
      invariant SYMBOLS <= j == |s.freq| <= NODES
      invariant Stage(f, s)
      invariant Holds(frequency, flag, up, s)
    {
      WeightsFit(f, s.freq);
      var minFreq0, minFreq1, smallest0, smallest1 := FindLightestTwo(frequency, j, s.freq);
      if minFreq1 == HEAVIEST {
        break;
      }
      ghost var a, b, r := NextStage(f, s);
      Link(frequency, flag, up, j, smallest0, smallest1, s, r);
      s := r;
      j := j + 1;
    }
  }

  lemma WeightsFit(f: seq<nat>, freq: seq<nat>)
    requires ValidFrequencies(f) && Sum(freq) == Sum(f)
    ensures forall i :: 0 <= i < |freq| ==> freq[i] <= MOST_WEIGHT
  {
    TotalWeight(f);
    forall i | 0 <= i < |freq|
      ensures freq[i] <= MOST_WEIGHT
    {
      SumAtLeastTerm(freq, i);
    }
  }
}
