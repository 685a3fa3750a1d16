/** What the finished tables are worth: prefix freeness and the exact Kraft sum, optimality among
    all prefix codes, and decodability of every message. */
module HuffmanTheorems {
  import opened BitStrings
  import opened Sums
  import opened PrefixCodes
  import opened HuffmanTree
  import opened HuffmanDepth
  import opened HuffmanCode
  import opened HuffmanOptimal

  lemma WordsArePaths(f: seq<nat>, bitsTab: seq<nat>, lenTab: seq<nat>)
    requires Tables(f, bitsTab, lenTab)
    ensures forall i :: 0 <= i < SYMBOLS ==> Words(bitsTab, lenTab)[i] == Path(Build(f), i)
    ensures Lengths(Words(bitsTab, lenTab)) == lenTab
  {
    forall i | 0 <= i < SYMBOLS
      ensures Words(bitsTab, lenTab)[i] == Path(Build(f), i)
    {
      BitsOfValue(Path(Build(f), i));
    }
  }

  // ------------------------------------------------------------------ prefix freeness

  /** A node is found from its root by its path alone. */
  lemma {:induction false} PathsDiffer(f: seq<nat>, s: Forest, i: nat, k: nat)
    requires Inv(f, s) && i < |s.up| && k < |s.up|
    requires Root(s, i) == Root(s, k) && Path(s, i) == Path(s, k)
    ensures i == k
    decreases |s.up| - i
  {
    if s.up[i] != -1 {
      var d := Depth(s, i) - 1;
      assert Path(s, i)[..d] == Path(s, s.up[i]) && Path(s, k)[..d] == Path(s, s.up[k]);
      assert Path(s, i)[d] == Path(s, k)[d];
      PathsDiffer(f, s, s.up[i], s.up[k]);
      assert s.flag[i] == s.flag[k];
    }
  }

  /** Below one root, a symbol's path starts no other node's path: symbols have no children. */
  lemma {:induction false} LeavesEndPaths(f: seq<nat>, s: Forest, leaf: nat, k: nat)
    requires Inv(f, s) && leaf < SYMBOLS && k < |s.up|
    requires Root(s, leaf) == Root(s, k) && IsPrefix(Path(s, leaf), Path(s, k))
    ensures leaf == k
    decreases |s.up| - k
  {
    var d := Depth(s, leaf);
    if d == Depth(s, k) {
      assert Path(s, k)[..d] == Path(s, k);
      PathsDiffer(f, s, leaf, k);
    } else {
      var p: nat := s.up[k];
      assert Path(s, p)[..d] == Path(s, k)[..d];
      LeavesEndPaths(f, s, leaf, p);
      assert false;
    }
  }

  /** The loop leaves one live node, or two when all 257 symbols took part: it has one turn too few. */
  lemma {:induction false} RootsLeft(s: Forest)
    requires Sized(s) && Live(s.freq) > 0
    ensures Live(s.freq) + |s.freq| <= NODES + 1 ==> Live(MergeAll(s).freq) == 1
    ensures Live(s.freq) + |s.freq| == NODES + 2 ==> Live(MergeAll(s).freq) == 2
    decreases NODES - |s.freq|
  {
    if |s.freq| < NODES && Live(s.freq) >= 2 {
      RootsLeft(Merge(s));
    }
  }

  /** How many trees the loop leaves: 2 exactly for the full alphabet, else 1. */
  function Roots(f: seq<nat>): nat
    requires |f| == SYMBOLS
  {
    if Live(f) == SYMBOLS then 2 else 1
  }

  lemma RootsCount(f: seq<nat>)
    requires ValidFrequencies(f)
    ensures Live(Build(f).freq) == Roots(f)
  {
    SomeLive(f, 256);
    RootsLeft(Plant(f));
  }

  lemma RootIsLive(f: seq<nat>, s: Forest, i: nat)
    requires Inv(f, s) && i < |s.up| && s.weight[i] > 0
    ensures s.freq[Root(s, i)] > 0
    decreases |s.up| - i
  {
    if s.up[i] != -1 {
      RootIsLive(f, s, s.up[i]);
    }
  }

  lemma OneRoot(freq: seq<nat>, r: nat, q: nat)
    requires Live(freq) == 1 && r < |freq| && q < |freq| && freq[r] > 0 && freq[q] > 0
    ensures r == q
  {
    LiveUpdate(freq, r, 0);
    if r != q {
      SomeLive(freq[r := 0], q);
    }
  }

  lemma PrefixFreeBelowFull(f: seq<nat>, bitsTab: seq<nat>, lenTab: seq<nat>)
    requires Tables(f, bitsTab, lenTab) && Live(f) <= 256
    ensures PrefixFree(f, Words(bitsTab, lenTab))
  {
    WordsArePaths(f, bitsTab, lenTab);
    RootsCount(f);
    var s, code := Build(f), Words(bitsTab, lenTab);
    forall i, k | 0 <= i < SYMBOLS && 0 <= k < SYMBOLS && i != k && f[i] > 0 && f[k] > 0
      ensures !IsPrefix(code[i], code[k])
    {
      assert s.weight[..SYMBOLS][i] == f[i] && s.weight[..SYMBOLS][k] == f[k];
      RootIsLive(f, s, i);
      RootIsLive(f, s, k);
      OneRoot(s.freq, Root(s, i), Root(s, k));
      if IsPrefix(code[i], code[k]) {
        LeavesEndPaths(f, s, i, k);
      }
    }
  }

  // ------------------------------------------------------------------ sums over the forest

  /** The nodes that were roots when node j was about to be made, each with its value. */
  function Frontier(s: Forest, v: seq<int>, j: nat): (r: seq<int>)
    requires Sized(s) && |v| == |s.up| && j <= |v|
    ensures |r| == j
  {
    seq(j, i requires 0 <= i < j => if s.up[i] == -1 || s.up[i] >= j then v[i] else 0)
  }

  /** Each merge trades the two children's values for their parent's value and a fee. */
  ghost predicate Trades(s: Forest, v: seq<int>, fee: seq<int>)
    requires Sized(s) && |v| == |fee| == |s.up|
  {
    forall j: nat, a: nat, b: nat :: j < |s.up| && MadeFrom(s, j, a, b) ==> v[a] + v[b] == v[j] + fee[j]
  }

  /** Before node j was made its two children stood in its place. */
  lemma FrontierSwap(f: seq<nat>, s: Forest, v: seq<int>, j: nat, a: nat, b: nat)
    requires Inv(f, s) && |v| == |s.up| && SYMBOLS <= j < |v| && MadeFrom(s, j, a, b)
    ensures Frontier(s, v, j + 1)[j] == v[j]
    ensures Frontier(s, v, j + 1)[a] == Frontier(s, v, j + 1)[b] == 0
    ensures Frontier(s, v, j) == Frontier(s, v, j + 1)[..j][a := v[a]][b := v[b]]
  {
  }

  lemma FrontierStep(f: seq<nat>, s: Forest, v: seq<int>, fee: seq<int>, j: nat)
    requires Inv(f, s) && |v| == |fee| == |s.up| && SYMBOLS <= j < |v| && Trades(s, v, fee)
    ensures Sum(Frontier(s, v, j)) == Sum(Frontier(s, v, j + 1)) + fee[j]
  {
    assert HasChildren(s, j);
    var a: nat, b: nat :| MadeFrom(s, j, a, b);
    FrontierSwap(f, s, v, j, a, b);
    assert v[a] + v[b] == v[j] + fee[j];
    var after := Frontier(s, v, j + 1);
    hide Inv, Frontier, Sum, Trades;
    var kept := after[..j];
    assert after == kept + [v[j]];
    SumSnoc(kept, v[j]);
    SumUpdate(kept, a, v[a]);
    SumUpdate(kept[a := v[a]], b, v[b]);
  }

  /** The symbols' values add up to the final roots' values and all the fees. */
  lemma {:induction false} Telescope(f: seq<nat>, s: Forest, v: seq<int>, fee: seq<int>, j: nat)
    requires Inv(f, s) && |v| == |fee| == |s.up| && SYMBOLS <= j <= |v| && Trades(s, v, fee)
    ensures Sum(v[..SYMBOLS]) == Sum(Frontier(s, v, j)) + Sum(fee[SYMBOLS..j])
  {
    if j == SYMBOLS {
      assert Frontier(s, v, SYMBOLS) == v[..SYMBOLS];
    } else {
      Telescope(f, s, v, fee, j - 1);
      FrontierStep(f, s, v, fee, j - 1);
      SumSnoc(fee[SYMBOLS..j - 1], fee[j - 1]);
      assert fee[SYMBOLS..j - 1] + [fee[j - 1]] == fee[SYMBOLS..j];
    }
  }

  // ------------------------------------------------------------------ the Kraft sum

  function NodeShares(s: Forest, L: nat): (v: seq<int>)
    requires Sized(s) && Upward(s)
    ensures |v| == |s.up|
  {
    seq(|s.up|, i requires 0 <= i < |s.up| => Share(s.weight[i], Depth(s, i), L))
  }

  lemma ShareHalves(f: seq<nat>, s: Forest, L: nat, j: nat, a: nat, b: nat)
    requires Inv(f, s) && j < |s.up| && MadeFrom(s, j, a, b) && Depth(s, a) <= L
    ensures Share(s.weight[a], Depth(s, a), L) + Share(s.weight[b], Depth(s, b), L)
            == Share(s.weight[j], Depth(s, j), L)
  {
    assert Depth(s, a) == Depth(s, b) == Depth(s, j) + 1;
    assert s.weight[a] > 0 && s.weight[b] > 0;
    hide Inv, Depth;
    assert Pow2(L - Depth(s, j)) == 2 * Pow2(L - Depth(s, a));
  }

  lemma SharesTrade(f: seq<nat>, s: Forest, L: nat)
    requires Inv(f, s) && forall i :: 0 <= i < |s.up| ==> Depth(s, i) <= L
    ensures Trades(s, NodeShares(s, L), seq(|s.up|, _ => 0))
  {
    forall j: nat, a: nat, b: nat | j < |s.up| && MadeFrom(s, j, a, b)
      ensures NodeShares(s, L)[a] + NodeShares(s, L)[b] == NodeShares(s, L)[j]
    {
      ShareHalves(f, s, L, j, a, b);
    }
    hide Inv, Share, Depth;
  }

  lemma {:induction false} SumOfRoots(freq: seq<nat>, x: seq<int>, c: nat)
    requires |x| == |freq|
    requires forall i :: 0 <= i < |x| ==> x[i] == if freq[i] > 0 then c else 0
    ensures Sum(x) == Live(freq) * c
  {
    if |x| > 0 {
      SumOfRoots(freq[..|x| - 1], x[..|x| - 1], c);
      assert (Live(freq[..|x| - 1]) + 1) * c == Live(freq[..|x| - 1]) * c + c;
    }
  }

  /** The code lengths use the code space exactly once per tree: the Kraft sum is the number of
      trees, at any scale. */
  lemma KraftExact(f: seq<nat>, bitsTab: seq<nat>, lenTab: seq<nat>, L: nat)
    requires Tables(f, bitsTab, lenTab) && L >= 22
    ensures Kraft(f, lenTab, L) == Roots(f) * Pow2(L)
  {
    SymbolShares(f, bitsTab, lenTab, L);
    RootShares(f, Build(f), L);
    RootsCount(f);
    hide Build, Inv, Depth, Shares, Roots, Live, Pow2;
    ForestShares(f, L);
  }

  /** What the symbols share is what the roots share. */
  lemma ForestShares(f: seq<nat>, L: nat)
    requires ValidFrequencies(f) && Inv(f, Build(f)) && L >= 22
    ensures Sum(NodeShares(Build(f), L)[..SYMBOLS]) == Sum(Frontier(Build(f), NodeShares(Build(f), L), |Build(f).up|))
  {
    var s := Build(f);
    assert Sized(s) && Upward(s);
    hide Build, Depth, Inv;
    forall i: nat | i < |s.up|
      ensures Depth(s, i) <= L
    {
      DepthBound(f, i);
    }
    var fee := seq(|s.up|, _ => 0);
    SharesTrade(f, s, L);
    hide Trades, NodeShares;
    Telescope(f, s, NodeShares(s, L), fee, |s.up|);
    SumConstant(fee[SYMBOLS..|s.up|], 0);
  }

  lemma SymbolShares(f: seq<nat>, bitsTab: seq<nat>, lenTab: seq<nat>, L: nat)
    requires Tables(f, bitsTab, lenTab)
    ensures NodeShares(Build(f), L)[..SYMBOLS] == Shares(f, lenTab, L)
  {
  }

  lemma RootShares(f: seq<nat>, s: Forest, L: nat)
    requires Inv(f, s)
    ensures Sum(Frontier(s, NodeShares(s, L), |s.up|)) == Live(s.freq) * Pow2(L)
  {
    SumOfRoots(s.freq, Frontier(s, NodeShares(s, L), |s.up|), Pow2(L));
  }

  /** The codes are prefix-free exactly when at least one of the 257 symbols is unused. */
  lemma PrefixFreeIff(f: seq<nat>, bitsTab: seq<nat>, lenTab: seq<nat>)
    requires Tables(f, bitsTab, lenTab)
    ensures PrefixFree(f, Words(bitsTab, lenTab)) <==> Live(f) <= 256
  {
    var code := Words(bitsTab, lenTab);
    if Live(f) <= 256 {
      PrefixFreeBelowFull(f, bitsTab, lenTab);
    } else if PrefixFree(f, code) {
      WordsArePaths(f, bitsTab, lenTab);
      KraftExact(f, bitsTab, lenTab, 22);
      LengthsWithin(f, bitsTab, lenTab);
      KraftInequality(f, code, 22);
    }
  }

  /** Every code fits the 32-bit accumulator by a wide margin. */
  lemma LengthWithin(f: seq<nat>, bitsTab: seq<nat>, lenTab: seq<nat>, i: nat)
    requires Tables(f, bitsTab, lenTab) && i < SYMBOLS
    ensures lenTab[i] <= 22 && bitsTab[i] < Pow2(lenTab[i])
  {
    DepthBound(f, i);
    BitsOfValue(Path(Build(f), i));
  }

  lemma LengthsWithin(f: seq<nat>, bitsTab: seq<nat>, lenTab: seq<nat>)
    requires Tables(f, bitsTab, lenTab)
    ensures Within(f, lenTab, 22)
  {
    forall i | 0 <= i < SYMBOLS && f[i] > 0
      ensures lenTab[i] <= 22
    {
      LengthWithin(f, bitsTab, lenTab, i);
    }
  }

  // ------------------------------------------------------------------ optimality

  lemma MergeAddsWeight(s: Forest)
    requires Sized(s) && |s.freq| < NODES && Live(s.freq) >= 2
    ensures Sum(Merge(s).weight[SYMBOLS..]) + MergeCost(Merge(s).freq) == Sum(s.weight[SYMBOLS..]) + MergeCost(s.freq)
    ensures Live(Merge(s).freq) == Live(s.freq) - 1
  {
    PicksExist(s.freq);
    var w := s.freq[Lightest(s.freq)] + s.freq[NextLightest(s.freq)];
    assert MergeCost(s.freq) == w + MergeCost(MergeFreq(s.freq));
    assert Merge(s).freq == MergeFreq(s.freq);
    assert Merge(s).weight[SYMBOLS..] == s.weight[SYMBOLS..] + [w];
    hide MergeCost, Live, Lightest, NextLightest, MergeFreq;
    SumSnoc(s.weight[SYMBOLS..], w);
  }

  lemma {:induction false} MergedWeights(s: Forest)
    requires Sized(s) && Live(s.freq) + |s.freq| <= NODES + 1
    ensures Sum(MergeAll(s).weight[SYMBOLS..]) == Sum(s.weight[SYMBOLS..]) + MergeCost(s.freq)
    decreases NODES - |s.freq|
  {
    if |s.freq| < NODES && Live(s.freq) >= 2 {
      MergeAddsWeight(s);
      hide Live, MergeCost, Merge, Sum;
      MergedWeights(Merge(s));
    } else {
      hide Live, Merge, Sum;
    }
  }

  function NodeCosts(s: Forest): (v: seq<int>)
    requires Sized(s) && Upward(s)
    ensures |v| == |s.up|
  {
    seq(|s.up|, i requires 0 <= i < |s.up| => s.weight[i] * Depth(s, i))
  }

  lemma CostDistributes(x: nat, y: nat, d: nat)
    ensures x * (d + 1) + y * (d + 1) == (x + y) * d + (x + y)
  {
  }

  lemma CostsTrade(f: seq<nat>, s: Forest)
    requires Inv(f, s)
    ensures Trades(s, NodeCosts(s), s.weight)
  {
    forall j: nat, a: nat, b: nat | j < |s.up| && MadeFrom(s, j, a, b)
      ensures NodeCosts(s)[a] + NodeCosts(s)[b] == NodeCosts(s)[j] + s.weight[j]
    {
      var d := Depth(s, j);
      assert Depth(s, a) == Depth(s, b) == d + 1;
      CostDistributes(s.weight[a], s.weight[b], d);
    }
    hide Inv, Depth;
  }

  lemma RootsCostNothing(s: Forest)
    requires Sized(s) && Upward(s)
    ensures Sum(Frontier(s, NodeCosts(s), |s.up|)) == 0
  {
    SumConstant(Frontier(s, NodeCosts(s), |s.up|), 0);
  }

  lemma SymbolCosts(f: seq<nat>, bitsTab: seq<nat>, lenTab: seq<nat>)
    requires Tables(f, bitsTab, lenTab)
    ensures NodeCosts(Build(f))[..SYMBOLS] == Costs(f, lenTab)
  {
  }

  lemma TotalMergedWeight(f: seq<nat>)
    requires |f| == SYMBOLS && Live(f) <= 256
    ensures Sum(Build(f).weight[SYMBOLS..]) == MergeCost(f)
  {
    MergedWeights(Plant(f));
    assert Plant(f).weight[SYMBOLS..] == [];
  }

  /** The bits the tables spend are exactly the weights of the merged nodes added up. */
  lemma TablesCost(f: seq<nat>, bitsTab: seq<nat>, lenTab: seq<nat>)
    requires Tables(f, bitsTab, lenTab) && Live(f) <= 256
    ensures Cost(f, lenTab) == MergeCost(f)
  {
    var s := Build(f);
    CostsTrade(f, s);
    hide Build, Trades, NodeCosts, Inv, Depth, Frontier, Costs, Live, MergeCost;
    Telescope(f, s, NodeCosts(s), s.weight, |s.up|);
    assert s.weight[SYMBOLS..] == s.weight[SYMBOLS..|s.up|];
    TotalMergedWeight(f);
    RootsCostNothing(s);
    SymbolCosts(f, bitsTab, lenTab);
  }

  /** No prefix code for the same symbols spends fewer bits on a message with these counts. */
  lemma Optimal(f: seq<nat>, bitsTab: seq<nat>, lenTab: seq<nat>, code: seq<Word>)
    requires Tables(f, bitsTab, lenTab) && Live(f) <= 256
    requires |code| == SYMBOLS && PrefixFree(f, code)
    ensures Cost(f, lenTab) <= Cost(f, Lengths(code))
  {
    TablesCost(f, bitsTab, lenTab);
    var L := LongestExists(code);
    KraftInequality(f, code, L);
    MergeCostIsLeast(f, Lengths(code), L);
  }
}
