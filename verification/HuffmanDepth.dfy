/** How deep the merged tree can be. */
module HuffmanDepth {
  import opened HuffmanTree

  /** Number of links from node i up to its root. */
  function Depth(s: Forest, i: nat): nat
    requires Upward(s) && i < |s.up|
    decreases |s.up| - i
  {
    if s.up[i] == -1 then 0 else 1 + Depth(s, s.up[i])
  }

  function Root(s: Forest, i: nat): (r: nat)
    requires Upward(s) && i < |s.up|
    ensures r < |s.up| && s.up[r] == -1
    decreases |s.up| - i
  {
    if s.up[i] == -1 then i else Root(s, s.up[i])
  }

  function Fib(n: nat): nat {
    if n < 2 then n else Fib(n - 2) + Fib(n - 1)
  }

  lemma {:induction false} FibMonotone(m: nat, n: nat)
    requires m <= n
    ensures Fib(m) <= Fib(n)
    decreases n - m
  {
    if m < n {
      FibMonotone(m + 1, n);
    }
  }

  /** A grandparent weighs at least its child and its grandchild together: the uncle was still
      live when the grandchild was merged, so it is no lighter than the grandchild. */
  lemma GrandparentWeight(f: seq<nat>, s: Forest, c: nat)
    requires Inv(f, s) && c < |s.up| && s.up[c] != -1 && s.up[s.up[c]] != -1
    ensures s.weight[s.up[s.up[c]]] >= s.weight[s.up[c]] + s.weight[c]
  {
    var p: nat := s.up[c];
    var g: nat := s.up[p];
    assert HasChildren(s, g);
    var a: nat, b: nat :| MadeFrom(s, g, a, b);
    assert p == a || p == b;
    var uncle := if p == a then b else a;
    assert Outlives(s, uncle, c);
  }

  /** Climbing from c, weights grow at least as fast as the Fibonacci numbers. */
  lemma {:induction false} RootWeight(f: seq<nat>, s: Forest, c: nat, k: nat)
    requires Inv(f, s) && c < |s.up| && s.up[c] != -1
    requires s.weight[c] >= Fib(k) && s.weight[s.up[c]] >= Fib(k + 1)
    ensures s.weight[Root(s, c)] >= Fib(k + Depth(s, c))
    decreases |s.up| - c
  {
    var p: nat := s.up[c];
    if s.up[p] != -1 {
      GrandparentWeight(f, s, c);
      RootWeight(f, s, p, k + 1);
    }
  }

  /** A node d links below its root needs a root of weight at least Fib(d + 2). */
  lemma WeightNeeded(f: seq<nat>, s: Forest, i: nat)
    requires Inv(f, s) && i < |s.up| && s.weight[i] > 0
    ensures s.weight[Root(s, i)] >= Fib(Depth(s, i) + 2)
  {
    if s.up[i] != -1 {
      var p: nat := s.up[i];
      assert HasChildren(s, p);
      var a: nat, b: nat :| MadeFrom(s, p, a, b);
      assert i == a || i == b;
      RootWeight(f, s, i, 2);
    }
  }

  lemma Fib25()
    ensures Fib(25) == 75025
  {
    assert Fib(8) == 21 && Fib(9) == 34;
    assert Fib(16) == 987 && Fib(17) == 1597 by {
      assert Fib(10) == 55 && Fib(11) == 89;
      assert Fib(12) == 144 && Fib(13) == 233;
      assert Fib(14) == 377 && Fib(15) == 610;
    }
    assert Fib(18) == 2584 && Fib(19) == 4181;
    assert Fib(20) == 6765 && Fib(21) == 10946;
    assert Fib(22) == 17711 && Fib(23) == 28657;
  }

  /** No table, however skewed, makes a node more than 22 links below its root. In particular no
      code is longer than 22, so the length complaint is never made. */
  lemma DepthBound(f: seq<nat>, i: nat)
    requires ValidFrequencies(f) && i < |Build(f).up|
    ensures Inv(f, Build(f)) && Depth(Build(f), i) <= 22
  {
    BuildInv(f);
    var s := Build(f);
    if s.weight[i] > 0 {
      WeightNeeded(f, s, i);
      MergeAllConservesWeight(Plant(f));
      WeightsFit(f, s.freq);
      var r := Root(s, i);
      assert s.weight[r] == s.freq[r] <= MOST_WEIGHT;
      if Depth(s, i) > 22 {
        FibMonotone(25, Depth(s, i) + 2);
        Fib25();
      }
    }
  }
}
