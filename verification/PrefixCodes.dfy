/** Prefix codes over weighted symbols, independent of how a code was found. A symbol of weight 0
    takes no part: its entry is ignored. */
module PrefixCodes {
  import opened BitStrings
  import opened Sums

  predicate IsPrefix(p: Word, q: Word) {
    |p| <= |q| && q[..|p|] == p
  }

  /** No code word of a weighted symbol begins the code word of another. */
  predicate PrefixFree(f: seq<nat>, code: seq<Word>)
    requires |f| == |code|
  {
    forall i, k :: 0 <= i < |f| && 0 <= k < |f| && i != k && f[i] > 0 && f[k] > 0 ==> !IsPrefix(code[i], code[k])
  }

  /** The table entries written out as bit strings. */
  function Words(bitsTab: seq<nat>, lenTab: seq<nat>): (code: seq<Word>)
    requires |bitsTab| == |lenTab|
    ensures |code| == |bitsTab|
  {
    seq(|bitsTab|, i requires 0 <= i < |bitsTab| => Bits(bitsTab[i], lenTab[i]))
  }

  function Lengths(code: seq<Word>): (l: seq<nat>)
    ensures |l| == |code|
  {
    seq(|code|, i requires 0 <= i < |code| => |code[i]|)
  }

  /** The weighted symbols' code words are at most L bits long. */
  predicate Within(f: seq<nat>, l: seq<nat>, L: nat)
    requires |f| == |l|
  {
    forall i :: 0 <= i < |f| && f[i] > 0 ==> l[i] <= L
  }

  function Share(weight: nat, len: nat, L: nat): nat {
    if weight > 0 && len <= L then Pow2(L - len) else 0
  }

  function Shares(f: seq<nat>, l: seq<nat>, L: nat): (r: seq<int>)
    requires |f| == |l|
    ensures |r| == |f|
  {
    seq(|f|, i requires 0 <= i < |f| => Share(f[i], l[i], L))
  }

  /** The Kraft sum times 2^L. */
  function Kraft(f: seq<nat>, l: seq<nat>, L: nat): int
    requires |f| == |l|
  {
    Sum(Shares(f, l, L))
  }

  function Costs(f: seq<nat>, l: seq<nat>): (r: seq<int>)
    requires |f| == |l|
    ensures |r| == |f|
  {
    seq(|f|, i requires 0 <= i < |f| => f[i] * l[i])
  }

  /** The bits a message spends whose symbol counts are f. */
  function Cost(f: seq<nat>, l: seq<nat>): int
    requires |f| == |l|
  {
    Sum(Costs(f, l))
  }

  // ------------------------------------------------------------------ Kraft's inequality

  /** The symbols whose code word starts with bit b; the others lose their weight. */
  function Branch(f: seq<nat>, code: seq<Word>, b: bool): (r: seq<nat>)
    requires |f| == |code|
    ensures |r| == |f|
  {
    seq(|f|, i requires 0 <= i < |f| => if |code[i]| > 0 && code[i][0] == b then f[i] else 0)
  }

  function Tails(code: seq<Word>): (r: seq<Word>)
    ensures |r| == |code|
  {
    seq(|code|, i requires 0 <= i < |code| => if |code[i]| > 0 then code[i][1..] else [])
  }

  lemma BranchPrefixFree(f: seq<nat>, code: seq<Word>, b: bool)
    requires |f| == |code| && PrefixFree(f, code)
    ensures PrefixFree(Branch(f, code, b), Tails(code))
  {
  }

  /** An empty code word leaves no room for another. */
  lemma EmptyWordAlone(f: seq<nat>, code: seq<Word>, e: nat, L: nat)
    requires |f| == |code| && PrefixFree(f, code)
    requires e < |f| && f[e] > 0 && code[e] == []
    ensures Kraft(f, Lengths(code), L) == Pow2(L)
  {
    var x := Shares(f, Lengths(code), L);
    forall i | 0 <= i < |f| && i != e
      ensures f[i] == 0
    {
      assert IsPrefix(code[e], code[i]);
    }
    SumUpdate(x, e, 0);
    SumConstant(x[e := 0], 0);
  }

  /** Every weighted symbol continues in exactly one branch, where its share is the same. */
  lemma SharesBranch(f: seq<nat>, code: seq<Word>, L: nat)
    requires |f| == |code| && L > 0
    requires forall i :: 0 <= i < |f| && f[i] > 0 ==> code[i] != []
    ensures Kraft(f, Lengths(code), L)
         == Kraft(Branch(f, code, false), Lengths(Tails(code)), L - 1)
            + Kraft(Branch(f, code, true), Lengths(Tails(code)), L - 1)
  {
    var t := Lengths(Tails(code));
    SumPointwise(Shares(f, Lengths(code), L), Shares(Branch(f, code, false), t, L - 1),
                 Shares(Branch(f, code, true), t, L - 1));
  }

  lemma BranchWithin(f: seq<nat>, code: seq<Word>, b: bool, L: nat)
    requires |f| == |code| && L > 0 && Within(f, Lengths(code), L)
    ensures Within(Branch(f, code, b), Lengths(Tails(code)), L - 1)
  {
  }

  lemma {:induction false} KraftInequality(f: seq<nat>, code: seq<Word>, L: nat)
    requires |f| == |code| && PrefixFree(f, code)
    requires Within(f, Lengths(code), L)
    ensures Kraft(f, Lengths(code), L) <= Pow2(L)
    decreases L
  {
    if e :| 0 <= e < |f| && f[e] > 0 && code[e] == [] {
      EmptyWordAlone(f, code, e, L);
    } else if L == 0 {
      SumConstant(Shares(f, Lengths(code), L), 0);
    } else {
      SharesBranch(f, code, L);
      BranchPrefixFree(f, code, false);
      BranchPrefixFree(f, code, true);
      BranchWithin(f, code, false, L);
      BranchWithin(f, code, true, L);
      hide PrefixFree, Within, Branch, Tails, Lengths, Kraft;
      KraftInequality(Branch(f, code, false), Tails(code), L - 1);
      KraftInequality(Branch(f, code, true), Tails(code), L - 1);
    }
  }

  /** One more bit of headroom doubles the scaled sum. */
  lemma KraftDoubles(f: seq<nat>, l: seq<nat>, L: nat)
    requires |f| == |l| && Within(f, l, L)
    ensures Kraft(f, l, L + 1) == 2 * Kraft(f, l, L)
  {
    SumScale(Shares(f, l, L + 1), Shares(f, l, L), 2);
  }

  lemma LongestExists(code: seq<Word>) returns (L: nat)
    ensures forall i :: 0 <= i < |code| ==> |code[i]| <= L
  {
    L := 0;
    for n := 0 to |code|
      invariant forall i :: 0 <= i < n ==> |code[i]| <= L
    {
      if |code[n]| > L {
        L := |code[n]|;
      }
    }
  }

  // ------------------------------------------------------------------ decoding

  /** Code words of weighted symbols, one after another. */
  function Encode(code: seq<Word>, message: seq<nat>): Word
    requires forall i :: 0 <= i < |message| ==> message[i] < |code|
  {
    if |message| == 0 then [] else code[message[0]] + Encode(code, message[1..])
  }

  /** The first weighted symbol whose code word starts the stream, as a table lookup finds it. */
  function Lookup(f: seq<nat>, code: seq<Word>, stream: Word): (i: nat)
    requires |f| == |code|
    ensures i <= |f|
    ensures i < |f| ==> f[i] > 0 && IsPrefix(code[i], stream)
    ensures forall k :: 0 <= k < i && f[k] > 0 ==> !IsPrefix(code[k], stream)
  {
    LookupFrom(f, code, stream, 0)
  }

  function LookupFrom(f: seq<nat>, code: seq<Word>, stream: Word, i: nat): (r: nat)
    requires |f| == |code| && i <= |f|
    ensures i <= r <= |f|
    ensures r < |f| ==> f[r] > 0 && IsPrefix(code[r], stream)
    ensures forall k :: i <= k < r && f[k] > 0 ==> !IsPrefix(code[k], stream)
    decreases |f| - i
  {
    if i == |f| then i
    else if f[i] > 0 && IsPrefix(code[i], stream) then i
    else LookupFrom(f, code, stream, i + 1)
  }

  datatype Decoded = Decoded(message: seq<nat>, rest: Word)

  /** Decodes n symbols, or fewer when no code word matches. */
  function Decode(f: seq<nat>, code: seq<Word>, stream: Word, n: nat): Decoded
    requires |f| == |code|
    decreases n
  {
    var i := Lookup(f, code, stream);
    if n == 0 || i == |f| then Decoded([], stream)
    else
      var d := Decode(f, code, stream[|code[i]|..], n - 1);
      Decoded([i] + d.message, d.rest)
  }

  lemma {:induction false} PrefixesNest(p: Word, q: Word, stream: Word)
    requires IsPrefix(p, stream) && IsPrefix(q, stream) && |p| <= |q|
    ensures IsPrefix(p, q)
  {
  }

  /** Whatever follows it, an encoded message decodes to itself and leaves what followed. */
  lemma {:induction false} RoundTrip(f: seq<nat>, code: seq<Word>, message: seq<nat>, rest: Word)
    requires |f| == |code| && PrefixFree(f, code)
    requires forall i :: 0 <= i < |message| ==> message[i] < |f| && f[message[i]] > 0
    ensures Decode(f, code, Encode(code, message) + rest, |message|) == Decoded(message, rest)
  {
    if |message| == 0 {
      assert [] + rest == rest;
    } else {
      var m := message[0];
      var tail := Encode(code, message[1..]) + rest;
      var stream := Encode(code, message) + rest;
      assert stream == code[m] + tail;
      assert stream[..|code[m]|] == code[m] && stream[|code[m]|..] == tail;
      var i := Lookup(f, code, stream);
      assert i < |f|;
      if |code[i]| <= |code[m]| {
        PrefixesNest(code[i], code[m], stream);
      } else {
        PrefixesNest(code[m], code[i], stream);
      }
      assert i == m;
      RoundTrip(f, code, message[1..], rest);
      assert [m] + message[1..] == message;
    }
  }
}
