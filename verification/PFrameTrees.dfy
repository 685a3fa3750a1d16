/** Whole P frames as trees, written to packets: what the decoder must give back. */
module PFrameTrees {

  import opened Sums
  import opened BitStrings
  import opened BlockTrees
  import opened BlockTypes
  import opened Bytes
  import opened MotionVectors
  import opened PBlocks
  import opened PFramePackets
  import opened PFrameDecoder
  import opened PFrames

  // ------------------------------------------------------------------ packets

  /** The byte whose bits, highest first, are the next eight. */
  function ByteAt(bits: seq<bool>, at: nat): byte
    requires at + 8 <= |bits|
  {
    BitsOfValue(bits[at..at + 8]);
    assert Pow2(4) == 16 && Pow2(8) == 256;
    Value(bits[at..at + 8])
  }

  function BytesOf(bits: seq<bool>): (s: seq<byte>)
    requires |bits| % 8 == 0
    ensures |s| == |bits| / 8
  {
    seq(|bits| / 8, j requires 0 <= j < |bits| / 8 => ByteAt(bits, 8 * j))
  }

  lemma BitsReadBack(bits: seq<bool>)
    requires |bits| % 8 == 0
    ensures BitsOf(BytesOf(bits)) == bits
  {
    hide Bits, Value;
    forall i | 0 <= i < |bits| ensures BitsOf(BytesOf(bits))[i] == bits[i] {
      var at := 8 * (i / 8);
      BitsOfValue(bits[at..at + 8]);
      assert bits[i] == bits[at..at + 8][i % 8];
    }
  }

  /** Streams that a packet can carry: whole words of bits, and lengths that fit their fields. */
  predicate Carried(version: nat, w: Written) {
    && |w.bits| % 32 == 0 && |w.bits| / 8 < INT_MAX / 8
    && 20 + |w.bits| / 8 + |w.words| + |w.bytes| <= INT_MAX
    && (version <= 1 ==> |w.bits| / 8 < 0x1_0000 && |w.words| < 0x1_0000)
  }

  function HeaderLength(version: nat): nat {
    if version > 1 then 20 else 0
  }

  function Body(w: Written): (s: seq<byte>)
    requires |w.bits| % 32 == 0
    ensures |s| == |w.bits| / 8 + |w.words| + |w.bytes|
  {
    Swapped(BytesOf(w.bits)) + w.words + w.bytes
  }

  /** The four bytes before a packet of an early version: two of the lengths. */
  function Before(version: nat, any: seq<byte>, w: Written): (s: seq<byte>)
    requires Carried(version, w) && |any| == 8
    ensures |s| == 4
  {
    if version > 1 then any[..4] else Le16Bytes(|w.bits| / 8) + Le16Bytes(|w.words|)
  }

  /** The packet; the first eight bytes of a later one are not looked at. */
  function Packet(version: nat, any: seq<byte>, w: Written): (buf: seq<byte>)
    requires Carried(version, w) && |any| == 8
    ensures |buf| == HeaderLength(version) + |w.bits| / 8 + |w.words| + |w.bytes|
  {
    if version > 1 then
      any + Le32Bytes(|w.bits| / 8) + Le32Bytes(|w.words|) + Le32Bytes(|w.bytes|) + Body(w)
    else Body(w)
  }

  lemma SizesReadBack(version: nat, any: seq<byte>, w: Written)
    requires Carried(version, w) && |any| == 8
    ensures var before, buf := Before(version, any, w), Packet(version, any, w);
            && |buf| <= INT_MAX && Taken(version, before, buf)
            && SizesOf(version, before, buf)
               == Sizes(HeaderLength(version), |w.bits| / 8, |w.words|, |w.bytes|)
  {
    hide Le16Bytes, Le32Bytes, Swapped, BytesOf, Le16, Le32;
    var before, buf := Before(version, any, w), Packet(version, any, w);
    if version > 1 {
      Le32ReadsBack(buf, 8, |w.bits| / 8);
      Le32ReadsBack(buf, 12, |w.words|);
      Le32ReadsBack(buf, 16, |w.bytes|);
    } else {
      Le16ReadsBack(before, 0, |w.bits| / 8);
      Le16ReadsBack(before, 2, |w.words|);
    }
  }

  /** Where the streams lie in a packet. */
  predicate LaidOut(buf: seq<byte>, extra: nat, bits: nat, w: Written)
    requires |w.bits| % 32 == 0
  {
    && |buf| == extra + bits + |w.words| + |w.bytes|
    && buf[extra..extra + bits] == Swapped(BytesOf(w.bits))
    && buf[extra + bits..] == w.words + w.bytes
    && buf[extra + bits + |w.words|..] == w.bytes
  }

  lemma BodyParts(version: nat, any: seq<byte>, w: Written)
    requires Carried(version, w) && |any| == 8
    ensures LaidOut(Packet(version, any, w), HeaderLength(version), |w.bits| / 8, w)
  {
    hide Swapped, BytesOf, Le32Bytes;
    var buf, extra, body := Packet(version, any, w), HeaderLength(version), Body(w);
    assert buf[extra..] == body;
    assert body == Swapped(BytesOf(w.bits)) + (w.words + w.bytes);
    assert body[|w.bits| / 8..] == w.words + w.bytes;
    assert body[..|w.bits| / 8] == Swapped(BytesOf(w.bits));
  }

  lemma WholeWords(held: seq<byte>, buf: seq<byte>, at: nat, n: nat)
    requires n % 4 == 0 && at + n <= |buf|
    ensures BitBytes(held, buf, at, n) == Swapped(buf[at..at + n])
  {
    hide Swapped, Kept;
    assert n / 4 * 4 == n;
  }

  lemma BitsFetched(held: seq<byte>, buf: seq<byte>, at: nat, bits: seq<bool>)
    requires |bits| % 32 == 0 && at + |bits| / 8 <= |buf|
    requires buf[at..at + |bits| / 8] == Swapped(BytesOf(bits))
    ensures BitsOf(BitBytes(held, buf, at, |bits| / 8)) == bits
  {
    hide Swapped, BytesOf, BitsOf, BitBytes;
    SwappedTwice(BytesOf(bits));
    BitsReadBack(bits);
    WholeWords(held, buf, at, |bits| / 8);
  }

  /** Any streams, put into a packet, are cut out of it again, whatever the buffer held; the word stream
      is followed by the byte stream. */
  lemma PacketReadsBack(version: nat, width: nat, height: nat, held: seq<byte>, any: seq<byte>, w: Written,
                        last: seq<Pixel>)
    requires Carried(version, w) && |any| == 8
    ensures var before, buf := Before(version, any, w), Packet(version, any, w);
            && |buf| <= INT_MAX && Taken(version, before, buf)
            && Cut(version, width, height, held, before, buf, last)
               == Source(version, width, height, Distances(version, width), w.bits, w.bytes, w.words + w.bytes, last)
  {
    hide SizesOf, Taken, Distances, BitsOf, BytesOf, Swapped, BitBytes, Packet, Before;
    SizesReadBack(version, any, w);
    BodyParts(version, any, w);
    BitsFetched(held, Packet(version, any, w), HeaderLength(version), w.bits);
  }

  // ------------------------------------------------------------------ whole frames

  function BlockAt(e: Source, x: nat, y: nat): (b: Block)
    requires Whole(e) && x % 8 == 0 && y % 8 == 0 && x < e.width && y < e.height
    ensures b == Block(x, y, 3, 3) && Inside(e, b)
  {
    BlockInside(e, x, y);
    Block(x, y, 3, 3)
  }

  /** One tree for each block, from a block on, left to right and top to bottom. */
  predicate FrameFits(e: Source, x: nat, y: nat, ts: seq<Tree>)
    requires Whole(e) && x % 8 == 0 && y % 8 == 0
    decreases e.height - y, e.width - x
  {
    if y >= e.height then ts == []
    else if x >= e.width then FrameFits(e, 0, y + 8, ts)
    else |ts| > 0 && Fitting(e, BlockAt(e, x, y), ts[0]) && FrameFits(e, x + 8, y, ts[1..])
  }

  function FrameLeaves(e: Source, x: nat, y: nat, ts: seq<Tree>): seq<Leaf>
    requires Whole(e) && x % 8 == 0 && y % 8 == 0 && FrameFits(e, x, y, ts)
    decreases e.height - y, e.width - x
  {
    if y >= e.height then []
    else if x >= e.width then FrameLeaves(e, 0, y + 8, ts)
    else Leaves(e, BlockAt(e, x, y), ts[0]) + FrameLeaves(e, x + 8, y, ts[1..])
  }

  function FrameWrite(e: Source, x: nat, y: nat, ts: seq<Tree>): Written
    requires Whole(e) && x % 8 == 0 && y % 8 == 0 && FrameFits(e, x, y, ts)
    decreases e.height - y, e.width - x
  {
    if y >= e.height then Written([], [], [])
    else if x >= e.width then FrameWrite(e, 0, y + 8, ts)
    else Join(Write(e, BlockAt(e, x, y), ts[0]), FrameWrite(e, x + 8, y, ts[1..]))
  }

  /** What the decoder reads from a block on. */
  function FromBlock(e: Source, r: Readers, x: nat, y: nat): Parsed
    requires Whole(e) && x % 8 == 0 && y % 8 == 0
  {
    if y < e.height then Rest(e, r, x, y) else ParseRows(e, r, y)
  }

  function OfBlock(e: Source, r: Readers, x: nat, y: nat): Parsed
    requires Whole(e) && x % 8 == 0 && y % 8 == 0 && x < e.width && y < e.height
  {
    Parse(e, r, BlockAt(e, x, y))
  }

  function AfterBlock(e: Source, r: Readers, x: nat, y: nat): Parsed
    requires Whole(e) && x % 8 == 0 && y % 8 == 0
  {
    FromBlock(e, r, x + 8, y)
  }

  function BelowRow(e: Source, r: Readers, y: nat): Parsed
    requires Whole(e) && y % 8 == 0
  {
    FromBlock(e, r, 0, y + 8)
  }

  lemma FromBlockUnfolds(e: Source, r: Readers, x: nat, y: nat)
    requires Whole(e) && x % 8 == 0 && y % 8 == 0
    ensures y >= e.height ==> FromBlock(e, r, x, y) == Parsed(true, r, [])
    ensures y < e.height && x >= e.width ==> FromBlock(e, r, x, y) == BelowRow(e, r, y)
    ensures y < e.height && x < e.width ==>
              var p := OfBlock(e, r, x, y); FromBlock(e, r, x, y) == Both(p, AfterBlock(e, p.readers, x, y))
  {
    hide Parse, ParseRow, Sane;
    if y < e.height {
      RestUnfolds(e, r, x, y);
      hide Rest;
      assert x >= e.width ==> BelowRow(e, r, y) == ParseRows(e, r, y + 8) by {
        RowsUnfold(e, r, y + 8);
      }
    }
  }

  /** A frame of any trees, in the streams, is read back to exactly its leaves, and no further. */
  lemma {:induction false} FrameReadsBack(e: Source, r: Readers, x: nat, y: nat, ts: seq<Tree>)
    requires Whole(e) && x % 8 == 0 && y % 8 == 0 && FrameFits(e, x, y, ts) && Ahead(e, r, FrameWrite(e, x, y, ts))
    ensures FromBlock(e, r, x, y) == Parsed(true, Past(r, FrameWrite(e, x, y, ts)), FrameLeaves(e, x, y, ts))
    decreases e.height - y, e.width - x
  {
    hide FromBlock, Parse, Ahead, Fitting, Sane, Write, Leaves;
    FromBlockUnfolds(e, r, x, y);
    if y >= e.height {
    } else if x >= e.width {
      FrameReadsBack(e, r, 0, y + 8, ts);
    } else {
      var b := BlockAt(e, x, y);
      var w, rest := Write(e, b, ts[0]), FrameWrite(e, x + 8, y, ts[1..]);
      PartsAhead(e, r, w, rest);
      TreeReadsBack(e, r, b, ts[0]);
      FrameReadsBack(e, Past(r, w), x + 8, y, ts[1..]);
    }
  }

  // ------------------------------------------------------------------ frames in packets

  /** Two frames that differ in their streams only. */
  predicate Alike(e: Source, f: Source) {
    e.version == f.version && e.width == f.width && e.height == f.height && e.mv == f.mv && e.last == f.last
  }

  lemma HereAlike(e: Source, f: Source, b: Block)
    requires Alike(e, f)
    ensures Here(e, b) == Here(f, b)
  {
  }

  lemma {:induction false} TreeAlike(e: Source, f: Source, b: Block, t: Tree)
    requires Sane(e) && Sane(f) && Alike(e, f) && Fitting(e, b, t)
    ensures Fitting(f, b, t) && Write(f, b, t) == Write(e, b, t) && Leaves(f, b, t) == Leaves(e, b, t)
    decreases t
  {
    hide At, Side, Words;
    HereAlike(e, f, b);
    match t
    case Stacked(u, l) =>
      TreeAlike(e, f, Upper(b), u);
      TreeAlike(e, f, Lower(b), l);
    case Beside(l, r) =>
      TreeAlike(e, f, Left(b), l);
      TreeAlike(e, f, Right(b), r);
    case _ =>
  }

  lemma BlockAlike(e: Source, f: Source, x: nat, y: nat, t: Tree)
    requires Whole(e) && Whole(f) && Alike(e, f) && x % 8 == 0 && y % 8 == 0 && x < e.width && y < e.height
    requires Fitting(e, BlockAt(e, x, y), t)
    ensures var b := BlockAt(e, x, y);
            && BlockAt(f, x, y) == b && Fitting(f, b, t)
            && Write(f, b, t) == Write(e, b, t) && Leaves(f, b, t) == Leaves(e, b, t)
  {
    hide Fitting, Write, Leaves;
    TreeAlike(e, f, BlockAt(e, x, y), t);
  }

  lemma {:induction false} FrameAlike(e: Source, f: Source, x: nat, y: nat, ts: seq<Tree>)
    requires Whole(e) && Whole(f) && Alike(e, f) && x % 8 == 0 && y % 8 == 0 && FrameFits(e, x, y, ts)
    ensures FrameFits(f, x, y, ts) && FrameWrite(f, x, y, ts) == FrameWrite(e, x, y, ts)
    ensures FrameLeaves(f, x, y, ts) == FrameLeaves(e, x, y, ts)
    decreases e.height - y, e.width - x
  {
    hide Fitting, Whole, BlockAt, Write, Leaves;
    if y >= e.height {
    } else if x >= e.width {
      FrameAlike(e, f, 0, y + 8, ts);
    } else {
      BlockAlike(e, f, x, y, ts[0]);
      FrameAlike(e, f, x + 8, y, ts[1..]);
    }
  }

  /** Bits padded to whole words. */
  function Filled(bits: seq<bool>): (s: seq<bool>)
    ensures |s| % 32 == 0 && |s| >= |bits| && s[..|bits|] == bits
  {
    bits + seq((32 - |bits| % 32) % 32, _ => false)
  }

  function Streams(w: Written): Written {
    w.(bits := Filled(w.bits))
  }

  /** A frame given as trees, written to the streams of a packet, is cut out of the packet and read back to
      exactly its leaves, whatever else the packet and the decoder's buffer hold. */
  lemma FrameSurvives(e: Source, ts: seq<Tree>, held: seq<byte>, any: seq<byte>)
    requires Whole(e) && e.mv == Distances(e.version, e.width) && |any| == 8 && FrameFits(e, 0, 0, ts)
    requires Carried(e.version, Streams(FrameWrite(e, 0, 0, ts)))
    ensures var w := Streams(FrameWrite(e, 0, 0, ts));
            var before, buf := Before(e.version, any, w), Packet(e.version, any, w);
            && |buf| <= INT_MAX && Taken(e.version, before, buf)
            && var f := Cut(e.version, e.width, e.height, held, before, buf, e.last);
               && Whole(f)
               && ParseRows(f, Readers(0, 0, 0), 0)
                  == Parsed(true, Past(Readers(0, 0, 0), FrameWrite(e, 0, 0, ts)), FrameLeaves(e, 0, 0, ts))
  {
    hide Distances, Taken, Cut, Packet, Before, FrameFits, FrameWrite, FrameLeaves, Filled, Parse;
    var w := FrameWrite(e, 0, 0, ts);
    var s := Streams(w);
    PacketReadsBack(e.version, e.width, e.height, held, any, s, e.last);
    var f := Cut(e.version, e.width, e.height, held, Before(e.version, any, s), Packet(e.version, any, s), e.last);
    FrameAlike(e, f, 0, 0, ts);
    assert f.words[..|w.words|] == w.words;
    FrameReadsBack(f, Readers(0, 0, 0), 0, 0, ts);
    RowsUnfold(f, Readers(0, 0, 0), 0);
  }
}
