/** Bit strings and the numbers they stand for, most significant bit first. */
module BitStrings {
  import opened Sums

  /** A string of bits, first transmitted bit first. */
  type Word = seq<bool>

  function Value(p: Word): nat {
    if |p| == 0 then 0 else 2 * Value(p[..|p| - 1]) + if p[|p| - 1] then 1 else 0
  }

  /** The len lowest bits of v, highest first: how a code table entry is written to a stream. */
  function Bits(v: nat, len: nat): (p: Word)
    ensures |p| == len
  {
    if len == 0 then [] else Bits(v / 2, len - 1) + [v % 2 == 1]
  }

  lemma {:induction false} BitsOfValue(p: Word)
    ensures Bits(Value(p), |p|) == p
    ensures Value(p) < Pow2(|p|)
  {
    if |p| > 0 {
      BitsOfValue(p[..|p| - 1]);
    }
  }

  lemma {:induction false} ValuePrepend(b: bool, p: Word)
    ensures Value([b] + p) == (if b then Pow2(|p|) else 0) + Value(p)
  {
    if |p| == 0 {
      assert [b] + p == [b];
      assert [b][..0] == [];
    } else {
      var n := |p| - 1;
      assert ([b] + p)[..n + 1] == [b] + p[..n];
      ValuePrepend(b, p[..n]);
    }
  }

  /** A field of len bits, written and read back. */
  lemma {:induction false} ValueOfBits(v: nat, len: nat)
    requires v < Pow2(len)
    ensures Value(Bits(v, len)) == v
  {
    if len > 0 {
      ValueOfBits(v / 2, len - 1);
      assert Bits(v, len)[..len - 1] == Bits(v / 2, len - 1);
    }
  }
}
