/** Reading the codes off the merged forest, from the leaves up. */
module HuffmanCode {
  import opened BitStrings
  import opened Sums
  import opened HuffmanTree
  import opened HuffmanDepth

  /** The flags met on the way from the root down to node i. */
  function Path(s: Forest, i: nat): (p: Word)
    requires Sized(s) && Upward(s) && i < |s.up|
    ensures |p| == Depth(s, i)
    decreases |s.up| - i
  {
    if s.up[i] == -1 then [] else Path(s, s.up[i]) + [s.flag[i] == 1]
  }

  /** Climbs from node j to its root, collecting flags lowest bit first. */
  method Climb(flag: array<int>, up: array<int>, frequency: array<int>, j: nat, ghost s: Forest)
    returns (bits: int, len: int)
    requires Holds(frequency, flag, up, s) && Upward(s) && Binary(s)
    requires j < |s.up|
    ensures len == |Path(s, j)| && bits == Value(Path(s, j))
  {
    var node := j;
    bits, len := 0, 0;
    ghost var tail: Word := [];
    while up[node] != -1
      invariant 0 <= node < |s.up| && 0 <= len == |tail|
      invariant Path(s, j) == Path(s, node) + tail
      invariant bits == Value(tail)
      decreases |s.up| - node
    {
      ghost var b := s.flag[node] == 1;
      ValuePrepend(b, tail);
      assert Path(s, node) + tail == Path(s, s.up[node]) + ([b] + tail);
      tail := [b] + tail;
      bits := bits + flag[node] * Pow2(len);
      len := len + 1;
      node := up[node];
    }
    assert Path(s, j) == tail;
  }

  /** The finished tables: entry j describes the path from the root to symbol j. */
  ghost predicate Tables(f: seq<nat>, bitsTab: seq<int>, lenTab: seq<int>) {
    && ValidFrequencies(f) && Inv(f, Build(f))
    && |bitsTab| == |lenTab| == SYMBOLS
    && (forall j :: 0 <= j < SYMBOLS ==>
          lenTab[j] == |Path(Build(f), j)| && bitsTab[j] == Value(Path(Build(f), j)))
  }

  method ExtractCodes(flag: array<int>, up: array<int>, frequency: array<int>, ghost f: seq<nat>)
    returns (bitsTab: array<int>, lenTab: array<int>)
    requires ValidFrequencies(f) && Holds(frequency, flag, up, Build(f))
    ensures Tables(f, bitsTab[..], lenTab[..])
  {
    BuildInv(f);
    ghost var s := Build(f);
    assert Upward(s) && Binary(s);
    hide Build, Binary, Upward, Path, Value;
    bitsTab, lenTab := new int[SYMBOLS], new int[SYMBOLS];
    var j := 0;
    while j < SYMBOLS
      invariant 0 <= j <= SYMBOLS
      invariant forall k :: 0 <= k < j ==> lenTab[k] == |Path(s, k)| && bitsTab[k] == Value(Path(s, k))
    {
      hide Inv, Holds;
      var bits, len := Climb(flag, up, frequency, j, s);
      bitsTab[j] := bits;
      lenTab[j] := len;
      j := j + 1;
    }
  }
}
