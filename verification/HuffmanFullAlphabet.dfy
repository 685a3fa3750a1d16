/** Full alphabets at work: a table that clashes, and one that leaves a symbol without a word. */
module HuffmanFullAlphabet {
  import opened Sums
  import opened PrefixCodes
  import opened HuffmanTree
  import opened HuffmanDepth
  import opened HuffmanTheorems
  import opened HuffmanTwoTrees
  import opened HuffmanAcceptance

  /** The two trees weigh together what the symbols weigh. */
  lemma RootsWeighAll(f: seq<nat>, s: Forest, a: nat, b: nat)
    requires TwoTrees(f, s, a, b) && Sum(s.freq) == Sum(f)
    ensures s.weight[a] + s.weight[b] == Sum(f)
  {
    SumUpdate(s.freq, a, 0);
    SumUpdate(s.freq[a := 0], b, 0);
    var rest := s.freq[a := 0][b := 0];
    forall i | 0 <= i < |rest|
      ensures rest[i] == 0
    {
      if rest[i] > 0 {
        NoThreeLive(s.freq, a, b, i);
      }
    }
    SumConstant(rest, 0);
  }

  /** A root that was merged weighs at most twice the other: its halves were lighter than that. */
  lemma RootsBalanced(f: seq<nat>, s: Forest, a: nat, b: nat)
    requires TwoTrees(f, s, a, b) && a >= SYMBOLS
    ensures s.weight[a] <= 2 * s.weight[b]
  {
    assert HasChildren(s, a);
    var x: nat, y: nat :| MadeFrom(s, a, x, y);
    assert Outlives(s, b, x) && Outlives(s, b, y);
  }

  /** Where no word is longer than ten bits, a clash is one of short words. */
  lemma ShortWordsClash(f: seq<nat>)
    requires ValidFrequencies(f) && Live(f) == SYMBOLS && !Wordless(f)
    requires forall i :: 0 <= i < SYMBOLS ==> Lens(f)[i] <= VLC_BITS + 1
    ensures NoticedClash(Vals(f), Lens(f))
  {
    var i, k := SomeClash(f);
    assert Lens(f)[i] <= VLC_BITS;
  }

  // ------------------------------------------------------------------ heavy and light symbols

  lemma {:induction false} RootHeaviest(f: seq<nat>, s: Forest, i: nat)
    requires Inv(f, s) && i < |s.up|
    ensures s.weight[Root(s, i)] >= s.weight[i]
    decreases |s.up| - i
  {
    if s.up[i] != -1 {
      var p: nat := s.up[i];
      assert HasChildren(s, p);
      var x: nat, y: nat :| MadeFrom(s, p, x, y);
      assert i == x || i == y;
      RootHeaviest(f, s, p);
    }
  }

  /** The two children of a root beside node j, against the two children of j: whichever pair was merged
      first, neither of it outweighs either of the other. */
  lemma PairsOrdered(f: seq<nat>, s: Forest, q: nat, j: nat, h: nat, k: nat)
    requires Inv(f, s) && SYMBOLS <= q < |s.up| && j < |s.up| && q != j
    requires MadeFrom(s, j, h, k) || MadeFrom(s, j, k, h)
    requires s.weight[h] > 0 && s.weight[k] > 0
    ensures s.weight[q] <= 2 * s.weight[k] || s.weight[q] >= 2 * s.weight[h]
  {
    assert HasChildren(s, q);
    var c: nat, d: nat :| MadeFrom(s, q, c, d);
    if q < j {
      assert Outlives(s, k, c) && Outlives(s, k, d);
    } else {
      assert Outlives(s, c, h) && Outlives(s, d, h);
    }
  }

  /** Besides any two symbols of a full alphabet there are 255 others. */
  lemma OthersWeigh(f: seq<nat>, i: nat, k: nat)
    requires ValidFrequencies(f) && Live(f) == SYMBOLS && i < SYMBOLS && k < SYMBOLS && i != k
    ensures Sum(f) >= f[i] + f[k] + 255 && f[i] <= 255
  {
    var ones, rest := seq(SYMBOLS, _ => 1), f[i := 1][k := 1];
    SumUpdate(f, i, 1);
    SumUpdate(f[i := 1], k, 1);
    SumConstant(ones, 1);
    forall j | 0 <= j < SYMBOLS
      ensures ones[j] <= rest[j]
    {
      AllLive(f, j);
    }
    SumMonotone(ones, rest);
  }

  /** A symbol that was merged into a root has no more than two fifths of the weight. */
  lemma MergedLastIsLight(f: seq<nat>, s: Forest, r: nat, q: nat, i: nat, k: nat)
    requires TwoTrees(f, s, r, q) && ValidFrequencies(f) && Sum(s.freq) == Sum(f) && i < SYMBOLS
    requires MadeFrom(s, r, i, k) || MadeFrom(s, r, k, i)
    ensures 5 * f[i] <= 2 * Sum(f)
  {
    RootsWeighAll(f, s, r, q);
    assert s.weight[i] == s.weight[..SYMBOLS][i] == f[i];
    assert Outlives(s, q, i);
    if q >= SYMBOLS {
      PairsOrdered(f, s, q, r, i, k);
    } else {
      assert s.weight[q] == s.weight[..SYMBOLS][q] == f[q];
      OthersWeigh(f, i, q);
    }
  }

  /** Nor has any symbol that was merged. */
  lemma MergedIsLight(f: seq<nat>, s: Forest, a: nat, b: nat, i: nat)
    requires TwoTrees(f, s, a, b) && ValidFrequencies(f) && Sum(s.freq) == Sum(f) && i < SYMBOLS && s.up[i] != -1
    ensures 5 * f[i] <= 2 * Sum(f)
  {
    assert s.weight[i] == s.weight[..SYMBOLS][i] == f[i];
    var j: nat := s.up[i];
    assert HasChildren(s, j);
    var x: nat, y: nat :| MadeFrom(s, j, x, y);
    assert x == i || y == i;
    UnderOne(f, s, a, b, i);
    var r, q := if Root(s, i) == a then a else b, if Root(s, i) == a then b else a;
    if s.up[j] == -1 {
      RootOfParent(s, i);
      MergedLastIsLight(f, s, r, q, i, if x == i then y else x);
    } else {
      GrandparentWeight(f, s, i);
      RootHeaviest(f, s, s.up[j]);
      RootOfParent(s, i);
      RootOfParent(s, j);
      RootsWeighAll(f, s, r, q);
      assert Outlives(s, q, i);
    }
  }

  lemma RootOfParent(s: Forest, i: nat)
    requires Upward(s) && i < |s.up| && s.up[i] != -1
    ensures Root(s, i) == Root(s, s.up[i]) && (s.up[s.up[i]] == -1 ==> Root(s, i) == s.up[i])
  {
  }

  /** With all symbols in use, one with more than two fifths of the weight is never merged: it has no word. */
  lemma HeavyHasNoWord(f: seq<nat>, i: nat)
    requires ValidFrequencies(f) && Live(f) == SYMBOLS && i < SYMBOLS && 5 * f[i] > 2 * Sum(f)
    ensures Lens(f)[i] == 0 && Wordless(f)
  {
    MergeAllConservesWeight(Plant(f));
    AllLive(f, i);
    var a, b := TwoRoots(f);
    hide Sum, Live, MergeAll, Inv;
    if Build(f).up[i] != -1 {
      MergedIsLight(f, Build(f), a, b, i);
    }
  }

  /** And where each has less than a third, each has a word. */
  lemma LightHaveWords(f: seq<nat>)
    requires ValidFrequencies(f) && Live(f) == SYMBOLS && forall i :: 0 <= i < SYMBOLS ==> 3 * f[i] < Sum(f)
    ensures !Wordless(f)
  {
    MergeAllConservesWeight(Plant(f));
    var a, b := TwoRoots(f);
    hide Sum, Live, MergeAll;
    forall i: nat | i < SYMBOLS
      ensures Lens(f)[i] > 0
    {
      if Build(f).up[i] == -1 {
        UnderOne(f, Build(f), a, b, i);
        LoneRootIsHeavy(f, Build(f), i, if a == i then b else a);
      }
    }
  }

  lemma {:induction false} RootAbove(s: Forest, c: nat)
    requires Upward(s) && c < |s.up|
    ensures Root(s, c) == c || Root(s, c) >= SYMBOLS
    decreases |s.up| - c
  {
    if s.up[c] != -1 {
      RootAbove(s, s.up[c]);
    }
  }

  lemma LoneRootIsHeavy(f: seq<nat>, s: Forest, i: nat, q: nat)
    requires TwoTrees(f, s, i, q) && Sum(s.freq) == Sum(f) && i < SYMBOLS
    ensures 3 * f[i] >= Sum(f)
  {
    RootsWeighAll(f, s, i, q);
    assert s.weight[i] == s.weight[..SYMBOLS][i] == f[i];
    if q < SYMBOLS {
      var c := if i != 0 && q != 0 then 0 else if i != 1 && q != 1 then 1 else 2;
      UnderOne(f, s, i, q, c);
      RootAbove(s, c);
    } else {
      RootsBalanced(f, s, q, i);
    }
  }

  // ------------------------------------------------------------------ all frequencies one

  function Flat(): (f: seq<nat>)
    ensures ValidFrequencies(f)
  {
    seq(SYMBOLS, _ => 1)
  }

  lemma {:induction false} AllPositive(freq: seq<nat>)
    requires forall i :: 0 <= i < |freq| ==> freq[i] > 0
    ensures Live(freq) == |freq|
  {
    if |freq| > 0 {
      AllPositive(freq[..|freq| - 1]);
    }
  }

  /** Neither tree of the flat table is lighter than half the other. */
  lemma FlatRoots(s: Forest, a: nat, b: nat)
    requires TwoTrees(Flat(), s, a, b) && Sum(s.freq) == Sum(Flat())
    ensures a >= SYMBOLS && b >= SYMBOLS && s.weight[a] < 172 && s.weight[b] < 172
  {
    var f := Flat();
    RootsWeighAll(f, s, a, b);
    SumConstant(f, 1);
    forall i | 0 <= i < SYMBOLS
      ensures s.weight[i] == 1
    {
      assert s.weight[..SYMBOLS][i] == f[i];
    }
    if a >= SYMBOLS {
      RootsBalanced(f, s, a, b);
    }
    if b >= SYMBOLS {
      RootsBalanced(f, s, b, a);
    }
  }

  lemma Fib13()
    ensures Fib(13) == 233
  {
    assert Fib(6) == 8 && Fib(7) == 13 && Fib(8) == 21 && Fib(9) == 34 && Fib(10) == 55 && Fib(11) == 89;
  }

  lemma RootAtTop(s: Forest, i: nat)
    requires Upward(s) && i < |s.up|
    ensures Depth(s, i) == 0 ==> Root(s, i) == i
  {
  }

  lemma FlatDepth(s: Forest, a: nat, b: nat, i: nat)
    requires TwoTrees(Flat(), s, a, b) && Sum(s.freq) == Sum(Flat()) && i < SYMBOLS
    ensures 0 < Depth(s, i) <= 10
  {
    FlatRoots(s, a, b);
    UnderOne(Flat(), s, a, b, i);
    WeightNeeded(Flat(), s, i);
    RootAtTop(s, i);
    hide Depth, Fib, Flat, Binary, Ordered, Marked;
    Fib13();
    if Depth(s, i) > 10 {
      FibMonotone(13, Depth(s, i) + 2);
    }
  }

  lemma FlatLens(i: nat)
    requires i < SYMBOLS && Live(Flat()) == SYMBOLS
    ensures 0 < Lens(Flat())[i] <= 10
  {
    MergeAllConservesWeight(Plant(Flat()));
    var a, b := TwoRoots(Flat());
    hide Sum, Live, MergeAll, Flat, Inv;
    FlatDepth(Build(Flat()), a, b, i);
  }

  /** All 257 frequencies one: every symbol has a word, but short words clash. */
  lemma FlatClashes()
    ensures Live(Flat()) == SYMBOLS && !Wordless(Flat()) && NoticedClash(Vals(Flat()), Lens(Flat()))
    ensures !PrefixFree(Flat(), Words(Vals(Flat()), Lens(Flat())))
  {
    AllPositive(Flat());
    hide Flat, Lens, Vals, NoticedClash;
    forall i: nat | i < SYMBOLS
      ensures 0 < Lens(Flat())[i] <= 10
    {
      FlatLens(i);
    }
    ShortWordsClash(Flat());
    TablesAre(Flat());
    PrefixFreeIff(Flat(), Vals(Flat()), Lens(Flat()));
  }

  // ------------------------------------------------------------------ one symbol as heavy as all others

  function TopHeavy(): (f: seq<nat>)
    ensures ValidFrequencies(f)
  {
    seq(SYMBOLS, i => if i == 0 then 255 else 1)
  }

  lemma TopHeavyWeighs()
    ensures Live(TopHeavy()) == SYMBOLS && Sum(TopHeavy()) == 511
  {
    AllPositive(TopHeavy());
    SumUpdate(Flat(), 0, 255);
    SumConstant(Flat(), 1);
    assert TopHeavy() == Flat()[0 := 255];
  }

  /** One frequency of 255, all others one: the first symbol gets no word, so nothing clashes. */
  lemma TopHeavyIsWordless()
    ensures Live(TopHeavy()) == SYMBOLS && Lens(TopHeavy())[0] == 0 && Wordless(TopHeavy())
    ensures Decodable(Vals(TopHeavy()), Lens(TopHeavy()))
  {
    hide Lens, Vals, Decodable, Sum, Live;
    TopHeavyWeighs();
    HeavyHasNoWord(TopHeavy(), 0);
    DecodableIff(TopHeavy());
  }
}
