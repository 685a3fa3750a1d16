/** What goes wrong with all 257 symbols in use: the merge loop leaves two trees. */
module HuffmanTwoTrees {
  import opened BitStrings
  import opened PrefixCodes
  import opened HuffmanTree
  import opened HuffmanDepth
  import opened HuffmanCode
  import opened HuffmanTheorems

  lemma {:induction false} AllLive(freq: seq<nat>, i: nat)
    requires Live(freq) == |freq| && i < |freq|
    ensures freq[i] > 0
  {
    LiveUpdate(freq, i, 1);
  }

  /** Of three live nodes two are the same. */
  lemma NoThreeLive(freq: seq<nat>, a: nat, b: nat, c: nat)
    requires Live(freq) == 2 && a < |freq| && b < |freq| && c < |freq| && freq[a] > 0 && freq[b] > 0 && freq[c] > 0
    ensures a == b || a == c || b == c
  {
    LiveUpdate(freq, a, 0);
    if a != b && a != c {
      OneRoot(freq[a := 0], b, c);
    }
  }

  /** The forest of a full alphabet, with its two roots. */
  ghost predicate TwoTrees(f: seq<nat>, s: Forest, a: nat, b: nat) {
    && Inv(f, s) && Live(f) == SYMBOLS && Live(s.freq) == 2
    && a < |s.up| && b < |s.up| && a != b && s.up[a] == s.up[b] == -1 && s.freq[a] > 0 && s.freq[b] > 0
  }

  lemma TwoRoots(f: seq<nat>) returns (a: nat, b: nat)
    requires ValidFrequencies(f) && Live(f) == SYMBOLS
    ensures TwoTrees(f, Build(f), a, b)
  {
    BuildInv(f);
    RootsCount(f);
    a, b := Picks(Build(f).freq);
  }

  /** Every symbol is under one of the two roots. */
  lemma UnderOne(f: seq<nat>, s: Forest, a: nat, b: nat, i: nat)
    requires TwoTrees(f, s, a, b) && i < SYMBOLS
    ensures s.weight[i] > 0 && (Root(s, i) == a || Root(s, i) == b)
  {
    AllLive(f, i);
    assert s.weight[..SYMBOLS][i] == f[i];
    RootIsLive(f, s, i);
    NoThreeLive(s.freq, a, b, Root(s, i));
  }

  // ------------------------------------------------------------------ a word of one tree in the other

  lemma RootOfChild(s: Forest, c: nat)
    requires Sized(s) && Upward(s) && c < |s.up| && s.up[c] != -1
    ensures Root(s, c) == Root(s, s.up[c]) && Path(s, c) == Path(s, s.up[c]) + [s.flag[c] == 1]
  {
  }

  /** An inner node has a child for either bit. */
  lemma ChildFor(f: seq<nat>, s: Forest, v: nat, bit: bool) returns (c: nat)
    requires Inv(f, s) && SYMBOLS <= v < |s.up|
    ensures c < |s.up| && Root(s, c) == Root(s, v) && Path(s, c) == Path(s, v) + [bit]
  {
    assert HasChildren(s, v);
    var x: nat, y: nat :| MadeFrom(s, v, x, y);
    c := if bit then y else x;
    RootOfChild(s, c);
  }

  lemma OneBitOn(front: Word, p: Word, n: nat)
    requires p != [] && n < |p|
    ensures (front + [p[0]]) + p[1..][..n] == front + p[..n + 1]
  {
    assert [p[0]] + p[1..][..n] == p[..n + 1];
    assert (front + [p[0]]) + p[1..][..n] == front + ([p[0]] + p[1..][..n]);
  }

  /** Following a word down from node v: either it ends at a node, or a symbol comes first. */
  lemma {:induction false} Follow(f: seq<nat>, s: Forest, v: nat, p: Word) returns (u: nat, n: nat)
    requires Inv(f, s) && v < |s.up|
    ensures u < |s.up| && n <= |p| && (n == |p| || u < SYMBOLS)
    ensures Root(s, u) == Root(s, v) && Path(s, u) == Path(s, v) + p[..n]
    decreases |p|
  {
    hide Root, Path;
    if p == [] || v < SYMBOLS {
      u, n := v, 0;
      assert Path(s, v) + p[..0] == Path(s, v);
    } else {
      var c := ChildFor(f, s, v, p[0]);
      u, n := Follow(f, s, c, p[1..]);
      OneBitOn(Path(s, v), p, n);
      n := n + 1;
    }
  }

  /** Below every inner node there is a symbol. */
  lemma {:induction false} SymbolBelow(f: seq<nat>, s: Forest, u: nat) returns (i: nat)
    requires Inv(f, s) && u < |s.up|
    ensures i < SYMBOLS && Root(s, i) == Root(s, u) && IsPrefix(Path(s, u), Path(s, i))
    ensures u >= SYMBOLS ==> |Path(s, u)| < |Path(s, i)|
    decreases u
  {
    if u < SYMBOLS {
      i := u;
    } else {
      assert HasChildren(s, u);
      var x: nat, y: nat :| MadeFrom(s, u, x, y);
      RootOfChild(s, x);
      i := SymbolBelow(f, s, x);
      assert Path(s, i)[..|Path(s, u)|] == Path(s, i)[..|Path(s, x)|][..|Path(s, u)|];
    }
  }

  /** A symbol's path is cut short, or goes on, or is met exactly in the other tree. */
  lemma OtherTree(f: seq<nat>, s: Forest, r: nat, i: nat) returns (k: nat)
    requires Inv(f, s) && i < SYMBOLS && r < |s.up| && s.up[r] == -1
    ensures k < SYMBOLS && Root(s, k) == r
    ensures IsPrefix(Path(s, k), Path(s, i)) || IsPrefix(Path(s, i), Path(s, k))
  {
    var p := Path(s, i);
    var u, n := Follow(f, s, r, p);
    assert Path(s, u) == p[..n];
    if u < SYMBOLS {
      k := u;
    } else {
      k := SymbolBelow(f, s, u);
      assert p[..n] == p;
    }
  }

  // ------------------------------------------------------------------ parity

  /** Everything in the set has a partner in it, and is its partner's partner. */
  predicate Partners(partner: seq<nat>, s: set<nat>) {
    forall i :: i in s ==>
      i < |partner| && partner[i] in s && partner[i] != i && partner[i] < |partner| && partner[partner[i]] == i
  }

  lemma {:induction false} EvenByPartners(partner: seq<nat>, s: set<nat>)
    requires Partners(partner, s)
    ensures |s| % 2 == 0
    decreases |s|
  {
    if s != {} {
      var i :| i in s;
      var rest := s - {i, partner[i]};
      assert |{i, partner[i]}| == 2 && s == rest + {i, partner[i]};
      EvenByPartners(partner, rest);
    }
  }

  function Range(n: nat): (s: set<nat>)
    ensures |s| == n && forall i: nat :: i in s <==> i < n
  {
    if n == 0 then {} else Range(n - 1) + {n - 1 as nat}
  }

  /** A path of one symbol begins a longer path of another. */
  ghost predicate Nested(s: Forest, i: nat, k: nat)
    requires Sized(s) && Upward(s) && i < |s.up| && k < |s.up|
  {
    |Path(s, i)| < |Path(s, k)| && IsPrefix(Path(s, i), Path(s, k))
  }

  /** No symbol's path begins a longer one. */
  ghost predicate NoneNested(s: Forest)
    requires Sized(s) && Upward(s)
  {
    forall i, k :: 0 <= i < SYMBOLS && 0 <= k < SYMBOLS ==> !Nested(s, i, k)
  }

  lemma Twin(f: seq<nat>, s: Forest, a: nat, b: nat, i: nat)
    requires TwoTrees(f, s, a, b) && i < SYMBOLS && NoneNested(s)
    ensures exists k: nat :: IsTwin(s, i, k)
  {
    UnderOne(f, s, a, b, i);
    var k := OtherTree(f, s, if Root(s, i) == a then b else a, i);
    assert !Nested(s, i, k) && !Nested(s, k, i);
    assert IsTwin(s, i, k);
  }

  predicate IsTwin(s: Forest, i: nat, k: nat)
    requires Sized(s) && Upward(s) && i < SYMBOLS
  {
    k < SYMBOLS && k != i && Path(s, k) == Path(s, i)
  }

  lemma NoThreeAlike(f: seq<nat>, s: Forest, a: nat, b: nat, i: nat, j: nat, k: nat)
    requires TwoTrees(f, s, a, b) && i < SYMBOLS && j < SYMBOLS && k < SYMBOLS
    requires Path(s, i) == Path(s, j) == Path(s, k)
    ensures i == j || i == k || j == k
  {
    UnderOne(f, s, a, b, i);
    UnderOne(f, s, a, b, j);
    UnderOne(f, s, a, b, k);
    if Root(s, i) == Root(s, j) {
      PathsDiffer(f, s, i, j);
    } else if Root(s, i) == Root(s, k) {
      PathsDiffer(f, s, i, k);
    } else {
      PathsDiffer(f, s, j, k);
    }
  }

  ghost function TwinOf(f: seq<nat>, s: Forest, a: nat, b: nat, i: nat): (k: nat)
    requires TwoTrees(f, s, a, b) && i < SYMBOLS && NoneNested(s)
    ensures IsTwin(s, i, k)
  {
    Twin(f, s, a, b, i);
    var k: nat :| IsTwin(s, i, k);
    k
  }

  lemma TwinsTwin(f: seq<nat>, s: Forest, a: nat, b: nat, i: nat)
    requires TwoTrees(f, s, a, b) && i < SYMBOLS && NoneNested(s)
    ensures var k := TwinOf(f, s, a, b, i); k < SYMBOLS && k != i && TwinOf(f, s, a, b, k) == i
  {
    var k := TwinOf(f, s, a, b, i);
    NoThreeAlike(f, s, a, b, i, k, TwinOf(f, s, a, b, k));
  }

  /** Without nesting the symbols come in pairs. */
  lemma AllPartnered(f: seq<nat>, s: Forest, a: nat, b: nat) returns (partner: seq<nat>)
    requires TwoTrees(f, s, a, b) && NoneNested(s)
    ensures Partners(partner, Range(SYMBOLS))
  {
    hide TwinOf, TwoTrees, NoneNested, IsTwin;
    partner := seq(SYMBOLS, i requires 0 <= i < SYMBOLS => TwinOf(f, s, a, b, i));
    forall i: nat | i < SYMBOLS
      ensures partner[i] < SYMBOLS && partner[i] != i && partner[partner[i]] == i
    {
      TwinsTwin(f, s, a, b, i);
    }
  }

  /** Two complete trees with an odd number of symbols between them cannot be alike. */
  lemma SomeNested(f: seq<nat>, s: Forest, a: nat, b: nat)
    requires TwoTrees(f, s, a, b)
    ensures !NoneNested(s)
  {
    if NoneNested(s) {
      var partner := AllPartnered(f, s, a, b);
      hide TwoTrees, NoneNested, Range;
      EvenByPartners(partner, Range(SYMBOLS));
    }
  }
}
