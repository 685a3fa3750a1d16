/** What the streams of a P frame mean: the leaves its blocks are split into, and what each puts into
    the picture. */
module PBlocks {

  import opened BlockTypes
  import opened Bytes

  type Pixel = x: int | 0 <= x < 0x1_0000

  /** A P frame: the size of the picture, the motion vectors as distances in it, the three streams, and
      the picture before. */
  datatype Source = Source(
    version: nat, width: nat, height: nat, mv: seq<int>, bits: seq<bool>, bytes: seq<byte>, words: seq<byte>,
    last: seq<Pixel>)

  predicate Sane(e: Source) {
    |e.mv| == 256 && |e.last| == e.width * e.height
  }

  /** How far each stream has been read. */
  datatype Readers = Readers(bit: nat, byt: nat, word: nat)

  function BytesLeft(e: Source, r: Readers): int {
    |e.bytes| - r.byt
  }

  function WordsLeft(e: Source, r: Readers): int {
    |e.words| - r.word
  }

  function BitAt(bits: seq<bool>, i: nat): nat {
    if i < |bits| && bits[i] then 1 else 0
  }

  /** The next five bits; past the end the stream is padded with zeros. */
  function Window(bits: seq<bool>, at: nat): (w: nat)
    ensures w < 32
  {
    16 * BitAt(bits, at) + 8 * BitAt(bits, at + 1) + 4 * BitAt(bits, at + 2)
    + 2 * BitAt(bits, at + 3) + BitAt(bits, at + 4)
  }

  /** 2^k, for the sides of blocks. */
  function Side(k: nat): (s: nat)
    requires k <= 3
    ensures s >= 1 && (k > 0 ==> s == 2 * Side(k - 1))
  {
    if k == 0 then 1 else if k == 1 then 2 else if k == 2 then 4 else 8
  }

  function At(e: Source, x: nat, y: nat): (o: nat) {
    y * e.width + x
  }

  /** A block of 2^log2w by 2^log2h pixels. */
  datatype Block = Block(x: nat, y: nat, log2w: nat, log2h: nat)

  predicate Inside(e: Source, b: Block) {
    b.log2w <= 3 && b.log2h <= 3 && b.x + Side(b.log2w) <= e.width && b.y + Side(b.log2h) <= e.height
  }

  /** A leaf stays as it is, takes pixels of the picture before from a place on, scaled by one or zero
      and shifted, or is two pixels given outright. */
  datatype Fill = Keep | Moved(from: int, scale: nat, dc: nat) | Raw(first: Pixel, second: Pixel)

  datatype Leaf = Leaf(block: Block, fill: Fill)

  /** The furthest place a block of this size can be taken from. */
  function End(e: Source, b: Block): int
    requires Inside(e, b)
  {
    e.width * (e.height - Side(b.log2h) + 1) - Side(b.log2w)
  }

  predicate InRange(e: Source, b: Block, from: int)
    requires Inside(e, b)
  {
    0 <= from <= End(e, b)
  }

  predicate Proper(e: Source, leaf: Leaf) {
    && Inside(e, leaf.block)
    && match leaf.fill
       case Keep => true
       case Moved(from, scale, dc) => InRange(e, leaf.block, from) && scale <= 1 && dc < 0x1_0000
       case Raw(_, _) => leaf.block.log2w + leaf.block.log2h == 1
  }

  // ------------------------------------------------------------------ parsing

  datatype Parsed = Parsed(ok: bool, readers: Readers, leaves: seq<Leaf>)

  function Failure(r: Readers): Parsed {
    Parsed(false, r, [])
  }

  function MovedLeaf(e: Source, r: Readers, b: Block, from: int, scale: nat, dc: nat): Parsed
    requires Inside(e, b)
  {
    if InRange(e, b, from) then Parsed(true, r, [Leaf(b, Moved(from, scale, dc))]) else Failure(r)
  }

  function ParseLeaf(e: Source, r: Readers, code: nat, b: Block): Parsed
    requires Sane(e) && Inside(e, b) && code <= 6 && code != 1 && code != 2
  {
    var here := At(e, b.x, b.y);
    if code == 6 then
      if WordsLeft(e, r) < 4 then Failure(r)
      else Parsed(true, r.(word := r.word + 4), [Leaf(b, Raw(Le16(e.words, r.word), Le16(e.words, r.word + 2)))])
    else if (code == 0 || code == 4) && BytesLeft(e, r) < 1 then Failure(r)
    else if code == 0 then
      MovedLeaf(e, r.(byt := r.byt + 1), b, here + e.mv[e.bytes[r.byt]], 1, 0)
    else if code == 3 then
      if e.version >= 2 then Parsed(true, r, [Leaf(b, Keep)]) else MovedLeaf(e, r, b, here, 1, 0)
    else
      var r1 := if code == 4 then r.(byt := r.byt + 1) else r;
      if WordsLeft(e, r1) < 2 then Failure(r1)
      else
        var dc := Le16(e.words, r1.word);
        var r2 := r1.(word := r1.word + 2);
        if code == 4 then MovedLeaf(e, r2, b, here + e.mv[e.bytes[r.byt]], 1, dc) else MovedLeaf(e, r2, b, here, 0, dc)
  }

  function Upper(b: Block): Block
    requires b.log2h > 0
  {
    b.(log2h := b.log2h - 1)
  }

  function Lower(b: Block): Block
    requires 0 < b.log2h <= 3
  {
    b.(y := b.y + Side(b.log2h - 1), log2h := b.log2h - 1)
  }

  function Left(b: Block): Block
    requires b.log2w > 0
  {
    b.(log2w := b.log2w - 1)
  }

  function Right(b: Block): Block
    requires 0 < b.log2w <= 3
  {
    b.(x := b.x + Side(b.log2w - 1), log2w := b.log2w - 1)
  }

  /** The next code word for a block: the code, and the readers behind it. */
  function NextCode(e: Source, r: Readers, b: Block): (c: (nat, Readers))
    requires Inside(e, b) && b.log2w + b.log2h > 0
    ensures c.0 <= 6
    ensures c.0 == 1 ==> b.log2h > 0 && b.log2w + b.log2h > 1
    ensures c.0 == 2 ==> b.log2w > 0 && b.log2w + b.log2h > 1
    ensures c.0 == 6 ==> b.log2w + b.log2h == 1
    ensures c.1.byt == r.byt && c.1.word == r.word
  {
    var t := Window(e.bits, r.bit);
    LegalCodes(e.version > 1, b.log2w, b.log2h, t);
    var words := Words(e.version > 1, Shape(b.log2w, b.log2h));
    var code := Code(words, t);
    (code, r.(bit := r.bit + words[code].length))
  }

  /** A block from the streams, as it is split: the upper or left half first. Where the streams end or a
      vector leaves the picture, the leaves so far. */
  function Parse(e: Source, r: Readers, b: Block): Parsed
    requires Sane(e) && Inside(e, b) && b.log2w + b.log2h > 0
    decreases b.log2w + b.log2h
  {
    var (code, r1) := NextCode(e, r, b);
    if code == 1 then var p := Parse(e, r1, Upper(b)); Both(p, Parse(e, p.readers, Lower(b)))
    else if code == 2 then var p := Parse(e, r1, Left(b)); Both(p, Parse(e, p.readers, Right(b)))
    else ParseLeaf(e, r1, code, b)
  }

  /** One part after another; what follows a failure is not reached. */
  function Both(p: Parsed, q: Parsed): Parsed {
    if p.ok then Parsed(q.ok, q.readers, p.leaves + q.leaves) else p
  }

  // ------------------------------------------------------------------ tiling

  predicate Covers(b: Block, px: nat, py: nat)
    requires b.log2w <= 3 && b.log2h <= 3
  {
    b.x <= px < b.x + Side(b.log2w) && b.y <= py < b.y + Side(b.log2h)
  }

  function Bit(c: bool): nat {
    if c then 1 else 0
  }

  predicate AllProper(e: Source, leaves: seq<Leaf>) {
    forall k :: 0 <= k < |leaves| ==> Proper(e, leaves[k])
  }

  /** How many leaves a pixel lies in. */
  function Count(e: Source, leaves: seq<Leaf>, px: nat, py: nat): nat
    requires AllProper(e, leaves)
  {
    if |leaves| == 0 then 0
    else Bit(Covers(leaves[0].block, px, py)) + Count(e, leaves[1..], px, py)
  }

  lemma {:induction false} CountAppend(e: Source, ls: seq<Leaf>, ms: seq<Leaf>, px: nat, py: nat)
    requires AllProper(e, ls) && AllProper(e, ms)
    ensures AllProper(e, ls + ms) && Count(e, ls + ms, px, py) == Count(e, ls, px, py) + Count(e, ms, px, py)
    decreases |ls|
  {
    if |ls| == 0 {
      assert ls + ms == ms;
    } else {
      CountAppend(e, ls[1..], ms, px, py);
      assert (ls + ms)[1..] == ls[1..] + ms;
    }
  }

  lemma RowsFit(y: nat, top: nat, width: nat)
    requires y <= top
    ensures y * width <= top * width && width * (top + 1) == top * width + width
  {
  }

  /** The co-located block is never out of the picture. */
  lemma HereIsInRange(e: Source, b: Block)
    requires Inside(e, b)
    ensures InRange(e, b, At(e, b.x, b.y))
  {
    hide Side;
    RowsFit(b.y, e.height - Side(b.log2h), e.width);
  }

  lemma LeafTiles(e: Source, r: Readers, code: nat, b: Block)
    requires Sane(e) && Inside(e, b) && code <= 6 && code != 1 && code != 2
    requires code == 6 ==> b.log2w + b.log2h == 1
    ensures var p := ParseLeaf(e, r, code, b);
            if p.ok then |p.leaves| == 1 && p.leaves[0].block == b && Proper(e, p.leaves[0]) else p.leaves == []
  {
  }

  lemma HalvesCover(e: Source, b: Block, px: nat, py: nat)
    requires Inside(e, b)
    ensures b.log2h > 0 ==> && Inside(e, Upper(b)) && Inside(e, Lower(b))
                            && Bit(Covers(b, px, py)) == Bit(Covers(Upper(b), px, py)) + Bit(Covers(Lower(b), px, py))
    ensures b.log2w > 0 ==> && Inside(e, Left(b)) && Inside(e, Right(b))
                            && Bit(Covers(b, px, py)) == Bit(Covers(Left(b), px, py)) + Bit(Covers(Right(b), px, py))
  {
  }

  /** The leaves are proper; on success every pixel of the block lies in exactly one, and no other pixel
      in any; otherwise none lies in two. */
  lemma {:induction false} Tiles(e: Source, r: Readers, b: Block, px: nat, py: nat)
    requires Sane(e) && Inside(e, b) && b.log2w + b.log2h > 0
    ensures var p := Parse(e, r, b);
            && AllProper(e, p.leaves)
            && Count(e, p.leaves, px, py) <= Bit(Covers(b, px, py))
            && (p.ok ==> Count(e, p.leaves, px, py) == Bit(Covers(b, px, py)))
    decreases b.log2w + b.log2h
  {
    hide Covers, NextCode, ParseLeaf, Proper;
    HalvesCover(e, b, px, py);
    var (code, r1) := NextCode(e, r, b);
    if code == 1 || code == 2 {
      var first := if code == 1 then Upper(b) else Left(b);
      var second := if code == 1 then Lower(b) else Right(b);
      Tiles(e, r1, first, px, py);
      var p := Parse(e, r1, first);
      if p.ok {
        Tiles(e, p.readers, second, px, py);
        CountAppend(e, p.leaves, Parse(e, p.readers, second).leaves, px, py);
      }
    } else {
      LeafTiles(e, r1, code, b);
      var p := ParseLeaf(e, r1, code, b);
      assert p.ok ==> p.leaves[1..] == [];
    }
  }
}
