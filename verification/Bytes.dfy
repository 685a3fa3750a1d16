/** Bytes, the little-endian words made of them, and stretches of a buffer. */
module Bytes {

  type byte = b: nat | b < 256

  const UINT_MAX: nat := 0xffff_ffff

  function Le16(buf: seq<byte>, at: nat): (r: nat)
    requires at + 2 <= |buf|
    ensures r < 0x1_0000
  {
    var low, high: int := buf[at], buf[at + 1];
    low + 0x100 * high
  }

  function Le32(buf: seq<byte>, at: nat): (r: nat)
    requires at + 4 <= |buf|
    ensures r <= UINT_MAX
  {
    Le16(buf, at) + 0x1_0000 * Le16(buf, at + 2)
  }

  function Le16Bytes(v: nat): (w: seq<byte>)
    requires v < 0x1_0000
    ensures |w| == 2
  {
    [v % 0x100, v / 0x100]
  }

  function Le32Bytes(v: nat): (w: seq<byte>)
    requires v <= UINT_MAX
    ensures |w| == 4
  {
    Le16Bytes(v % 0x1_0000) + Le16Bytes(v / 0x1_0000)
  }

  /** The two parts of a stretch lie one after the other. */
  lemma PartOf<T>(s: seq<T>, at: nat, v: seq<T>, w: seq<T>)
    requires at + |v + w| <= |s| && s[at..at + |v + w|] == v + w
    ensures s[at..at + |v|] == v && s[at + |v|..at + |v| + |w|] == w
  {
    assert s[at..at + |v|] == s[at..at + |v + w|][..|v|];
    assert s[at + |v|..at + |v| + |w|] == s[at..at + |v + w|][|v|..];
  }

  lemma Le16ReadsBack(s: seq<byte>, at: nat, v: nat)
    requires v < 0x1_0000 && at + 2 <= |s| && s[at..at + 2] == Le16Bytes(v)
    ensures Le16(s, at) == v
  {
    assert s[at] == s[at..at + 2][0] && s[at + 1] == s[at..at + 2][1];
  }

  lemma Le32ReadsBack(s: seq<byte>, at: nat, v: nat)
    requires v <= UINT_MAX && at + 4 <= |s| && s[at..at + 4] == Le32Bytes(v)
    ensures Le32(s, at) == v
  {
    hide Le16Bytes, Le16;
    PartOf(s, at, Le16Bytes(v % 0x1_0000), Le16Bytes(v / 0x1_0000));
    Le16ReadsBack(s, at, v % 0x1_0000);
    Le16ReadsBack(s, at + 2, v / 0x1_0000);
  }
}
