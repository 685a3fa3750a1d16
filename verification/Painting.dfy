/** What the leaves of a P frame put into the picture. */
module Painting {

  import opened PBlocks

  /** The first and the second of two neighbouring pixels, added to as one 32-bit word: what the first
      carries goes into the second. */
  function Low(a: Pixel, scale: nat, dc: nat): Pixel
    requires scale <= 1
  {
    (scale * a + dc) % 0x1_0000
  }

  function High(a: Pixel, b: Pixel, scale: nat, dc: nat): Pixel
    requires scale <= 1
  {
    (scale * b + dc + (scale * a + dc) / 0x1_0000) % 0x1_0000
  }

  /** Pixel c of a row of w. */
  function Shade(last: seq<Pixel>, from: nat, w: nat, c: nat, scale: nat, dc: nat): Pixel
    requires from + w <= |last| && c < w && scale <= 1
  {
    if w == 1 || c % 2 == 0 then Low(last[from + c], scale, dc) else High(last[from + c - 1], last[from + c], scale, dc)
  }

  function Row(last: seq<Pixel>, from: nat, w: nat, scale: nat, dc: nat): (row: seq<Pixel>)
    requires from + w <= |last| && scale <= 1
    ensures |row| == w
  {
    seq(w, c requires 0 <= c < w => Shade(last, from, w, c, scale, dc))
  }

  /** A run of pixels written over a frame. */
  function Splice(f: seq<Pixel>, o: nat, row: seq<Pixel>): (g: seq<Pixel>)
    requires o + |row| <= |f|
    ensures |g| == |f|
    ensures forall i :: 0 <= i < |f| ==> g[i] == if o <= i < o + |row| then row[i - o] else f[i]
  {
    f[..o] + row + f[o + |row|..]
  }

  lemma SpliceNothing(f: seq<Pixel>, o: nat, row: seq<Pixel>)
    requires o <= |f| && row == []
    ensures Splice(f, o, row) == f
  {
  }

  lemma SpliceTwice(f: seq<Pixel>, o: nat, row: seq<Pixel>, more: seq<Pixel>)
    requires o + |row| + |more| <= |f|
    ensures Splice(Splice(f, o, row), o + |row|, more) == Splice(f, o, row + more)
  {
  }

  /** Where row r of a leaf is taken from. */
  function From(e: Source, from: nat, scale: nat, r: nat): nat {
    if scale == 0 then from else At(e, from, r)
  }

  /** A later row begins past the end of an earlier one. */
  lemma RowsInOrder(width: nat, y: nat, later: nat)
    requires y < later
    ensures y * width + width <= later * width
  {
    var more := later - y - 1;
    assert later * width == (y + 1 + more) * width == y * width + width + more * width;
    assert more * width >= 0;
  }

  lemma LastRow(width: nat, height: nat, h: nat, r: nat)
    requires r < h <= height
    ensures 0 <= r * width && width * (height - h + 1) + r * width <= width * height
  {
    RowsInOrder(width, r, h);
    assert width * (height - h + 1) == width * height - h * width + width;
  }

  /** Rows within the range stay in the picture before. */
  lemma RowInRange(e: Source, b: Block, from: nat, r: nat)
    requires Inside(e, b) && InRange(e, b, from) && r < Side(b.log2h)
    ensures At(e, from, r) + Side(b.log2w) <= e.width * e.height && from + Side(b.log2w) <= e.width * e.height
  {
    LastRow(e.width, e.height, Side(b.log2h), r);
  }

  lemma RowInside(e: Source, b: Block, r: nat)
    requires Inside(e, b) && r < Side(b.log2h)
    ensures At(e, b.x, b.y + r) + Side(b.log2w) <= e.width * e.height
  {
    hide Side;
    RowsInOrder(e.width, b.y + r, e.height);
    assert e.height * e.width == e.width * e.height;
  }

  /** Row r of a leaf that is not kept. */
  function RowPixels(e: Source, leaf: Leaf, r: nat): (row: seq<Pixel>)
    requires Sane(e) && Proper(e, leaf) && !leaf.fill.Keep? && r < Side(leaf.block.log2h)
    ensures |row| == Side(leaf.block.log2w)
  {
    match leaf.fill
    case Moved(from, scale, dc) =>
      RowInRange(e, leaf.block, from, r);
      Row(e.last, From(e, from, scale, r), Side(leaf.block.log2w), scale, dc)
    case Raw(first, second) =>
      if leaf.block.log2w == 1 then [first, second] else if r == 0 then [first] else [second]
  }

  /** The picture with the first n rows of a leaf put into it. */
  function PaintRows(e: Source, f: seq<Pixel>, leaf: Leaf, n: nat): (g: seq<Pixel>)
    requires Sane(e) && Proper(e, leaf) && |f| == e.width * e.height && n <= Side(leaf.block.log2h)
    ensures |g| == |f|
  {
    if n == 0 || leaf.fill.Keep? then f
    else
      RowInside(e, leaf.block, n - 1);
      Splice(PaintRows(e, f, leaf, n - 1), At(e, leaf.block.x, leaf.block.y + n - 1), RowPixels(e, leaf, n - 1))
  }

  function PaintLeaf(e: Source, f: seq<Pixel>, leaf: Leaf): (g: seq<Pixel>)
    requires Sane(e) && Proper(e, leaf) && |f| == e.width * e.height
    ensures |g| == |f|
  {
    PaintRows(e, f, leaf, Side(leaf.block.log2h))
  }

  function PaintAll(e: Source, f: seq<Pixel>, leaves: seq<Leaf>): (g: seq<Pixel>)
    requires Sane(e) && AllProper(e, leaves) && |f| == e.width * e.height
    ensures |g| == |f|
    decreases |leaves|
  {
    if |leaves| == 0 then f else PaintAll(e, PaintLeaf(e, f, leaves[0]), leaves[1..])
  }

  lemma {:induction false} PaintAppend(e: Source, f: seq<Pixel>, ls: seq<Leaf>, ms: seq<Leaf>)
    requires Sane(e) && AllProper(e, ls) && AllProper(e, ms) && |f| == e.width * e.height
    ensures AllProper(e, ls + ms) && PaintAll(e, f, ls + ms) == PaintAll(e, PaintAll(e, f, ls), ms)
    decreases |ls|
  {
    hide PaintLeaf, Proper, Sane;
    if |ls| == 0 {
      assert ls + ms == ms;
    } else {
      PaintAppend(e, PaintLeaf(e, f, ls[0]), ls[1..], ms);
      assert (ls + ms)[1..] == ls[1..] + ms;
    }
  }

  // ------------------------------------------------------------------ single pixels

  /** Places in the picture are in the order of rows, then of columns. */
  lemma PlaceInRun(e: Source, x: nat, y: nat, w: nat, px: nat, py: nat)
    requires x + w <= e.width && px < e.width
    ensures At(e, x, y) <= At(e, px, py) < At(e, x, y) + w <==> py == y && x <= px < x + w
  {
    if py < y {
      RowsInOrder(e.width, py, y);
    } else if py > y {
      RowsInOrder(e.width, y, py);
    }
  }

  lemma PlaceInside(e: Source, px: nat, py: nat)
    requires px < e.width && py < e.height
    ensures At(e, px, py) < e.width * e.height
  {
    RowsInOrder(e.width, py, e.height);
    assert e.height * e.width == e.width * e.height;
  }

  /** What a pixel becomes under a leaf that covers it. */
  function LeafPixel(e: Source, leaf: Leaf, px: nat, py: nat, before: Pixel): Pixel
    requires Sane(e) && Proper(e, leaf) && Covers(leaf.block, px, py)
  {
    if leaf.fill.Keep? then before else RowPixels(e, leaf, py - leaf.block.y)[px - leaf.block.x]
  }

  lemma {:induction false} PaintRowsAt(e: Source, f: seq<Pixel>, leaf: Leaf, n: nat, px: nat, py: nat)
    requires Sane(e) && Proper(e, leaf) && |f| == e.width * e.height && n <= Side(leaf.block.log2h)
    requires px < e.width && py < e.height
    ensures At(e, px, py) < |f|
    ensures PaintRows(e, f, leaf, n)[At(e, px, py)] ==
            if Covers(leaf.block, px, py) && py < leaf.block.y + n
            then LeafPixel(e, leaf, px, py, f[At(e, px, py)]) else f[At(e, px, py)]
    decreases n
  {
    hide RowPixels, At, Side, Sane, Proper, Splice;
    PlaceInside(e, px, py);
    if n > 0 && !leaf.fill.Keep? {
      PaintRowsAt(e, f, leaf, n - 1, px, py);
      SplicedAt(e, PaintRows(e, f, leaf, n - 1), leaf, n - 1, px, py);
    }
  }

  /** One more row changes the pixels of that row within the leaf, and no others. */
  lemma SplicedAt(e: Source, f: seq<Pixel>, leaf: Leaf, r: nat, px: nat, py: nat)
    requires Sane(e) && Proper(e, leaf) && !leaf.fill.Keep? && |f| == e.width * e.height && r < Side(leaf.block.log2h)
    requires px < e.width && py < e.height
    ensures At(e, px, py) < |f| && At(e, leaf.block.x, leaf.block.y + r) + Side(leaf.block.log2w) <= |f|
    ensures Splice(f, At(e, leaf.block.x, leaf.block.y + r), RowPixels(e, leaf, r))[At(e, px, py)] ==
            if py == leaf.block.y + r && leaf.block.x <= px < leaf.block.x + Side(leaf.block.log2w)
            then RowPixels(e, leaf, r)[px - leaf.block.x] else f[At(e, px, py)]
  {
    PlaceInside(e, px, py);
    RowInside(e, leaf.block, r);
    PlaceInRun(e, leaf.block.x, leaf.block.y + r, Side(leaf.block.log2w), px, py);
    assert py == leaf.block.y + r ==> At(e, px, py) - At(e, leaf.block.x, leaf.block.y + r) == px - leaf.block.x;
    hide RowPixels, At, Side, InRange;
  }

  /** Where no leaf covers a pixel it stays; where one alone does, that leaf decides. */
  lemma {:induction false} PaintAllAt(e: Source, f: seq<Pixel>, leaves: seq<Leaf>, px: nat, py: nat, k: nat)
    requires Sane(e) && AllProper(e, leaves) && |f| == e.width * e.height && px < e.width && py < e.height
    ensures At(e, px, py) < |f|
    ensures Count(e, leaves, px, py) == 0 ==> PaintAll(e, f, leaves)[At(e, px, py)] == f[At(e, px, py)]
    ensures Count(e, leaves, px, py) == 1 && k < |leaves| && Covers(leaves[k].block, px, py) ==>
              PaintAll(e, f, leaves)[At(e, px, py)] == LeafPixel(e, leaves[k], px, py, f[At(e, px, py)])
    decreases |leaves|
  {
    hide RowPixels, At, Side, PaintRows, InRange, LeafPixel;
    PlaceInside(e, px, py);
    if |leaves| > 0 {
      PaintLeafAt(e, f, leaves[0], px, py);
      PaintAllAt(e, PaintLeaf(e, f, leaves[0]), leaves[1..], px, py, if k > 0 then k - 1 else 0);
      if k > 0 && k < |leaves| && Covers(leaves[k].block, px, py) {
        CoverCounts(e, leaves[1..], px, py, k - 1);
      }
    }
  }

  lemma PaintLeafAt(e: Source, f: seq<Pixel>, leaf: Leaf, px: nat, py: nat)
    requires Sane(e) && Proper(e, leaf) && |f| == e.width * e.height && px < e.width && py < e.height
    ensures At(e, px, py) < |f|
    ensures PaintLeaf(e, f, leaf)[At(e, px, py)] ==
            if Covers(leaf.block, px, py) then LeafPixel(e, leaf, px, py, f[At(e, px, py)]) else f[At(e, px, py)]
  {
    hide RowPixels, At, Side, PaintRows, LeafPixel;
    PaintRowsAt(e, f, leaf, Side(leaf.block.log2h), px, py);
  }

  lemma {:induction false} CoverCounts(e: Source, leaves: seq<Leaf>, px: nat, py: nat, k: nat)
    requires AllProper(e, leaves) && k < |leaves| && Covers(leaves[k].block, px, py)
    ensures Count(e, leaves, px, py) >= 1
    decreases |leaves|
  {
    if k > 0 {
      CoverCounts(e, leaves[1..], px, py, k - 1);
    }
  }
}
