/** Merging the two lightest is the cheapest way to spend bits: no assignment of lengths that obeys
    Kraft's inequality, hence no prefix code, costs less. */
module HuffmanOptimal {
  import opened Sums
  import opened PrefixCodes
  import opened HuffmanTree

  /** What the merge loop adds up on its way from these frequencies to a single root. */
  function MergeCost(freq: seq<nat>): nat
    decreases Live(freq)
  {
    if Live(freq) < 2 then 0
    else
      PicksExist(freq);
      freq[Lightest(freq)] + freq[NextLightest(freq)] + MergeCost(MergeFreq(freq))
  }

  function Swap(l: seq<nat>, i: nat, k: nat): (r: seq<nat>)
    requires i < |l| && k < |l|
    ensures |r| == |l|
  {
    l[i := l[k]][k := l[i]]
  }

  lemma SwapProducts(w: nat, v: nat, x: nat, y: nat)
    requires w <= v && x <= y
    ensures w * y + v * x <= w * x + v * y
  {
  }

  lemma SwapCosts(f: seq<nat>, l: seq<nat>, i: nat, k: nat)
    requires |f| == |l| && i < |f| && k < |f| && i != k
    requires f[i] <= f[k] && l[i] <= l[k]
    ensures Cost(f, Swap(l, i, k)) <= Cost(f, l)
  {
    var c := Costs(f, l);
    var u, v := f[i] * l[k], f[k] * l[i];
    SumUpdate(c, i, u);
    SumUpdate(c[i := u], k, v);
    assert c[i := u][k := v] == Costs(f, Swap(l, i, k));
    SwapProducts(f[i], f[k], l[i], l[k]);
  }

  lemma SwapShares(f: seq<nat>, l: seq<nat>, i: nat, k: nat, L: nat)
    requires |f| == |l| && i < |f| && k < |f| && i != k && f[i] > 0 && f[k] > 0
    ensures Kraft(f, Swap(l, i, k), L) == Kraft(f, l, L)
  {
    var x := Shares(f, l, L);
    SumUpdate(x, i, x[k]);
    SumUpdate(x[i := x[k]], k, x[i]);
    assert x[i := x[k]][k := x[i]] == Shares(f, Swap(l, i, k), L);
  }

  /** Moving the longer length to the lighter symbol never costs more, and keeps the Kraft sum. */
  lemma SwapHelps(f: seq<nat>, l: seq<nat>, i: nat, k: nat, L: nat)
    requires |f| == |l| && i < |f| && k < |f| && Within(f, l, L)
    requires 0 < f[i] <= f[k] && l[i] <= l[k]
    ensures Within(f, Swap(l, i, k), L)
    ensures Cost(f, Swap(l, i, k)) <= Cost(f, l)
    ensures Kraft(f, Swap(l, i, k), L) == Kraft(f, l, L)
  {
    hide Cost, Kraft;
    if i == k {
      assert Swap(l, i, k) == l;
    } else {
      SwapCosts(f, l, i, k);
      SwapShares(f, l, i, k, L);
    }
  }

  lemma {:induction false} SumEven(x: seq<int>)
    requires forall i :: 0 <= i < |x| ==> x[i] % 2 == 0
    ensures Sum(x) % 2 == 0
  {
    if |x| > 0 {
      SumEven(x[..|x| - 1]);
    }
  }

  lemma ShortenedShares(f: seq<nat>, l: seq<nat>, p: nat, L: nat)
    requires |f| == |l| && p < |f| && f[p] > 0 && l[p] == L > 0
    requires forall i :: 0 <= i < |f| && i != p && f[i] > 0 ==> l[i] < L
    ensures Kraft(f, l, L) % 2 == 1 && Kraft(f, l[p := L - 1], L) == Kraft(f, l, L) + 1
  {
    var x := Shares(f, l, L);
    SumUpdate(x, p, 0);
    SumEven(x[p := 0]);
    SumUpdate(x, p, 2);
    assert x[p := 2] == Shares(f, l[p := L - 1], L);
  }

  lemma ShortenedCosts(f: seq<nat>, l: seq<nat>, p: nat, L: nat)
    requires |f| == |l| && p < |f| && l[p] == L > 0
    ensures Cost(f, l[p := L - 1]) <= Cost(f, l)
  {
    var c := Costs(f, l);
    SumUpdate(c, p, f[p] * (L - 1));
    assert c[p := f[p] * (L - 1)] == Costs(f, l[p := L - 1]);
    assert f[p] * (L - 1) <= f[p] * L;
  }

  /** A single longest code word can always lose its last bit. */
  lemma ShortenLoneLongest(f: seq<nat>, l: seq<nat>, p: nat, L: nat)
    requires |f| == |l| && p < |f| && f[p] > 0 && l[p] == L > 0 && Within(f, l, L)
    requires forall i :: 0 <= i < |f| && i != p && f[i] > 0 ==> l[i] < L
    requires Kraft(f, l, L) <= Pow2(L)
    ensures Within(f, l[p := L - 1], L - 1)
    ensures Kraft(f, l[p := L - 1], L - 1) <= Pow2(L - 1)
    ensures Cost(f, l[p := L - 1]) <= Cost(f, l)
  {
    ShortenedShares(f, l, p, L);
    ShortenedCosts(f, l, p, L);
    KraftDoubles(f, l[p := L - 1], L - 1);
    hide Kraft, Cost;
  }

  lemma MergeSiblingShares(f: seq<nat>, l: seq<nat>, g: seq<nat>, a: nat, b: nat, L: nat)
    requires |f| == |l| && L > 0 && a < |f| && b < |f| && a != b && f[a] > 0 && f[b] > 0
    requires l[a] == l[b] == L
    requires g == f[a := 0][b := 0] + [f[a] + f[b]]
    ensures Kraft(g, l + [L - 1], L) == Kraft(f, l, L)
  {
    var x := Shares(f, l, L);
    SumUpdate(x, a, 0);
    SumUpdate(x[a := 0], b, 0);
    SumSnoc(x[a := 0][b := 0], 2);
    assert x[a := 0][b := 0] + [2] == Shares(g, l + [L - 1], L);
  }

  lemma SharedLength(x: nat, y: nat, L: nat)
    requires L > 0
    ensures x * L + y * L == (x + y) * (L - 1) + x + y
  {
  }

  lemma MergedCosts(f: seq<nat>, l: seq<nat>, g: seq<nat>, a: nat, b: nat, L: nat)
    requires |f| == |l| && L > 0 && a < |f| && b < |f| && a != b
    requires g == f[a := 0][b := 0] + [f[a] + f[b]]
    ensures Costs(f, l)[a := 0][b := 0] + [(f[a] + f[b]) * (L - 1)] == Costs(g, l + [L - 1])
  {
  }

  lemma MergeSiblingCosts(f: seq<nat>, l: seq<nat>, g: seq<nat>, a: nat, b: nat, L: nat)
    requires |f| == |l| && L > 0 && a < |f| && b < |f| && a != b
    requires l[a] == l[b] == L
    requires g == f[a := 0][b := 0] + [f[a] + f[b]]
    ensures Cost(f, l) == Cost(g, l + [L - 1]) + f[a] + f[b]
  {
    hide Sum;
    var c, w := Costs(f, l), f[a] + f[b];
    SumUpdate(c, a, 0);
    SumUpdate(c[a := 0], b, 0);
    SumSnoc(c[a := 0][b := 0], w * (L - 1));
    MergedCosts(f, l, g, a, b, L);
    SharedLength(f[a], f[b], L);
    assert c[a] == f[a] * L && c[b] == f[b] * L;
  }

  lemma MergedIs(f: seq<nat>) returns (a: nat, b: nat)
    requires Live(f) >= 2
    ensures a == Lightest(f) < |f| && b == NextLightest(f) < |f| && a != b && f[a] > 0 && f[b] > 0
    ensures MergeFreq(f) == f[a := 0][b := 0] + [f[a] + f[b]]
  {
    a, b := Picks(f);
  }

  lemma MergeSiblingsWithin(f: seq<nat>, l: seq<nat>, g: seq<nat>, a: nat, b: nat, L: nat)
    requires |f| == |l| && L > 0 && a < |f| && b < |f| && Within(f, l, L)
    requires g == f[a := 0][b := 0] + [f[a] + f[b]]
    ensures Within(g, l + [L - 1], L)
  {
  }

  /** Merging two longest siblings: their parent takes a length one shorter, the Kraft sum stays and
      exactly their joint weight is saved. */
  lemma MergeSiblings(f: seq<nat>, l: seq<nat>, L: nat)
    requires |f| == |l| && Live(f) >= 2 && L > 0
    requires Lightest(f) < |f| && NextLightest(f) < |f|
    requires l[Lightest(f)] == l[NextLightest(f)] == L && Within(f, l, L)
    ensures Within(MergeFreq(f), l + [L - 1], L)
    ensures Kraft(MergeFreq(f), l + [L - 1], L) == Kraft(f, l, L)
    ensures Cost(f, l) == Cost(MergeFreq(f), l + [L - 1]) + f[Lightest(f)] + f[NextLightest(f)]
  {
    hide MergeFreq, Kraft, Cost, Live, Lightest, NextLightest, Within;
    var a, b := MergedIs(f);
    MergeSiblingsWithin(f, l, MergeFreq(f), a, b, L);
    MergeSiblingShares(f, l, MergeFreq(f), a, b, L);
    MergeSiblingCosts(f, l, MergeFreq(f), a, b, L);
  }

  /** Two symbols of the longest length give it to the two lightest symbols. */
  lemma LongestToLightest(f: seq<nat>, l: seq<nat>, p: nat, q: nat, L: nat) returns (r: seq<nat>)
    requires |f| == |l| && Live(f) >= 2 && Within(f, l, L)
    requires p < |f| && q < |f| && p != q && f[p] > 0 && f[q] > 0 && l[p] == l[q] == L
    ensures |r| == |f| && Within(f, r, L)
    ensures Lightest(f) < |f| && NextLightest(f) < |f|
    ensures r[Lightest(f)] == r[NextLightest(f)] == L
    ensures Cost(f, r) <= Cost(f, l) && Kraft(f, r, L) == Kraft(f, l, L)
  {
    var a, b := Picks(f);
    SwapHelps(f, l, a, p, L);
    var r1 := Swap(l, a, p);
    var q1 := if q == a then p else q;
    assert r1[q1] == L && r1[a] == L && q1 != a;
    SwapHelps(f, r1, b, q1, L);
    r := Swap(r1, b, q1);
  }

  lemma CostNonNegative(f: seq<nat>, l: seq<nat>)
    requires |f| == |l|
    ensures Cost(f, l) >= 0
  {
    var zeros := seq(|f|, _ => 0);
    SumConstant(zeros, 0);
    SumMonotone(zeros, Costs(f, l));
  }

  lemma TwoOfLengthZero(f: seq<nat>, l: seq<nat>, p: nat, q: nat)
    requires |f| == |l| && p < |f| && q < |f| && p != q && f[p] > 0 && f[q] > 0 && l[p] == l[q] == 0
    ensures Kraft(f, l, 0) > Pow2(0)
  {
    var x := Shares(f, l, 0);
    SumUpdate(x, p, 0);
    SumAtLeastTerm(x[p := 0], q);
  }

  /** The merge cost is a lower bound for every assignment of lengths that Kraft's inequality allows. */
  lemma {:induction false} MergeCostIsLeast(f: seq<nat>, l: seq<nat>, L: nat)
    requires |f| == |l| && Within(f, l, L) && Kraft(f, l, L) <= Pow2(L)
    ensures MergeCost(f) <= Cost(f, l)
    decreases Live(f), L
  {
    hide Kraft, Cost, Live, Lightest, NextLightest, MergeFreq;
    if Live(f) < 2 {
      CostNonNegative(f, l);
    } else if p: nat :| p < |f| && f[p] > 0 && l[p] == L {
      if q: nat :| q < |f| && q != p && f[q] > 0 && l[q] == L {
        if L == 0 {
          TwoOfLengthZero(f, l, p, q);
        } else {
          var r := LongestToLightest(f, l, p, q, L);
          MergeSiblings(f, r, L);
          MergeCostIsLeast(MergeFreq(f), r + [L - 1], L);
        }
      } else {
        LoneLongestIsPositive(f, l, p, L);
        ShortenLoneLongest(f, l, p, L);
        MergeCostIsLeast(f, l[p := L - 1], L - 1);
      }
    } else {
      LoneLongestIsPositive(f, l, |f|, L);
      KraftDoubles(f, l, L - 1);
      MergeCostIsLeast(f, l, L - 1);
    }
  }

  lemma LoneLongestIsPositive(f: seq<nat>, l: seq<nat>, p: nat, L: nat)
    requires |f| == |l| && Live(f) >= 2 && Within(f, l, L)
    requires forall i :: 0 <= i < |f| && i != p && f[i] > 0 ==> l[i] < L
    ensures L > 0
  {
    var a, b := Picks(f);
    assert a != p || b != p;
  }
}
