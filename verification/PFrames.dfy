/** Whole P frames: blocks of 8 by 8 pixels, row after row, and what their leaves make of the picture. */
module PFrames {

  import opened PBlocks
  import opened Painting

  predicate Whole(e: Source) {
    Sane(e) && e.width % 8 == 0 && e.height % 8 == 0
  }

  /** The blocks of a row from x on. */
  function ParseRow(e: Source, r: Readers, x: nat, y: nat): Parsed
    requires Whole(e) && x % 8 == 0 && y % 8 == 0 && y < e.height
    decreases e.width - x
  {
    if x >= e.width then Parsed(true, r, [])
    else var p := Parse(e, r, Block(x, y, 3, 3)); Both(p, ParseRow(e, p.readers, x + 8, y))
  }

  /** The rows of blocks from y on. */
  function ParseRows(e: Source, r: Readers, y: nat): Parsed
    requires Whole(e) && y % 8 == 0
    decreases e.height - y
  {
    if y >= e.height then Parsed(true, r, [])
    else var p := ParseRow(e, r, 0, y); Both(p, ParseRows(e, p.readers, y + 8))
  }

  /** The rest of a row of blocks, and the rows below it. */
  function Rest(e: Source, r: Readers, x: nat, y: nat): Parsed
    requires Whole(e) && x % 8 == 0 && y % 8 == 0 && y < e.height
  {
    var p := ParseRow(e, r, x, y);
    Both(p, ParseRows(e, p.readers, y + 8))
  }

  lemma BothAssociates(p: Parsed, q: Parsed, s: Parsed)
    ensures Both(Both(p, q), s) == Both(p, Both(q, s))
  {
  }

  /** After the next block comes the rest of its row; after the last block of a row, the row below. */
  lemma RestUnfolds(e: Source, r: Readers, x: nat, y: nat)
    requires Whole(e) && x % 8 == 0 && y % 8 == 0 && y < e.height
    ensures x >= e.width ==> Rest(e, r, x, y) == ParseRows(e, r, y + 8)
    ensures x < e.width ==>
              var p := Parse(e, r, Block(x, y, 3, 3)); Rest(e, r, x, y) == Both(p, Rest(e, p.readers, x + 8, y))
  {
    hide Parse, ParseRows, Sane;
    if x >= e.width {
      assert [] + ParseRows(e, r, y + 8).leaves == ParseRows(e, r, y + 8).leaves;
    } else {
      var p := Parse(e, r, Block(x, y, 3, 3));
      var q := ParseRow(e, p.readers, x + 8, y);
      assert ParseRow(e, r, x, y) == Both(p, q);
      hide ParseRow;
      BothAssociates(p, q, ParseRows(e, q.readers, y + 8));
    }
  }

  /** Leaves that tile an area: none overlap or lie outside; on success all of it is covered. */
  ghost predicate Tiling(e: Source, p: Parsed, px: nat, py: nat, area: bool) {
    && AllProper(e, p.leaves)
    && Count(e, p.leaves, px, py) <= Bit(area)
    && (p.ok ==> Count(e, p.leaves, px, py) == Bit(area))
  }

  /** Leaves of one area and, if that went well, of another beside it tile both. */
  lemma BothTile(e: Source, p: Parsed, q: Parsed, px: nat, py: nat, area: bool, more: bool)
    requires Tiling(e, p, px, py, area) && (p.ok ==> Tiling(e, q, px, py, more)) && !(area && more)
    ensures Tiling(e, Both(p, q), px, py, area || more)
  {
    if p.ok {
      CountAppend(e, p.leaves, q.leaves, px, py);
    }
  }

  lemma {:induction false} RowTiles(e: Source, r: Readers, x: nat, y: nat, px: nat, py: nat)
    requires Whole(e) && x % 8 == 0 && y % 8 == 0 && y < e.height
    ensures Tiling(e, ParseRow(e, r, x, y), px, py, x <= px < e.width && y <= py < y + 8)
    decreases e.width - x
  {
    hide Parse, Both, Sane;
    if x < e.width {
      var b := Block(x, y, 3, 3);
      Tiles(e, r, b, px, py);
      var p := Parse(e, r, b);
      hide Count, AllProper;
      RowTiles(e, p.readers, x + 8, y, px, py);
      BothTile(e, p, ParseRow(e, p.readers, x + 8, y), px, py, Covers(b, px, py),
               x + 8 <= px < e.width && y <= py < y + 8);
    }
  }

  lemma {:induction false} RowsTile(e: Source, r: Readers, y: nat, px: nat, py: nat)
    requires Whole(e) && y % 8 == 0
    ensures Tiling(e, ParseRows(e, r, y), px, py, px < e.width && y <= py < e.height)
    decreases e.height - y
  {
    hide ParseRow, Both, Sane;
    if y < e.height {
      RowTiles(e, r, 0, y, px, py);
      var p := ParseRow(e, r, 0, y);
      hide Count, AllProper;
      RowsTile(e, p.readers, y + 8, px, py);
      BothTile(e, p, ParseRows(e, p.readers, y + 8), px, py, px < e.width && y <= py < y + 8,
               px < e.width && y + 8 <= py < e.height);
    }
  }

  lemma {:induction false} SomeLeafCovers(e: Source, leaves: seq<Leaf>, px: nat, py: nat) returns (k: nat)
    requires AllProper(e, leaves) && Count(e, leaves, px, py) > 0
    ensures k < |leaves| && Covers(leaves[k].block, px, py)
    decreases |leaves|
  {
    if Covers(leaves[0].block, px, py) {
      k := 0;
    } else {
      k := SomeLeafCovers(e, leaves[1..], px, py);
      k := k + 1;
    }
  }

  /** When a whole frame is read, every pixel of the picture lies in one leaf, and is what that leaf says. */
  lemma FrameIsItsLeaves(e: Source, r: Readers, f: seq<Pixel>, px: nat, py: nat) returns (k: nat)
    requires Whole(e) && |f| == e.width * e.height && px < e.width && py < e.height
    ensures var p := ParseRows(e, r, 0);
            p.ok ==>
              && AllProper(e, p.leaves) && At(e, px, py) < |f|
              && k < |p.leaves| && Covers(p.leaves[k].block, px, py)
              && PaintAll(e, f, p.leaves)[At(e, px, py)] == LeafPixel(e, p.leaves[k], px, py, f[At(e, px, py)])
  {
    k := 0;
    var p := ParseRows(e, r, 0);
    if p.ok {
      RowsTile(e, r, 0, px, py);
      k := SomeLeafCovers(e, p.leaves, px, py);
      PaintAllAt(e, f, p.leaves, px, py, k);
    }
  }

  lemma ShadeMeans(last: seq<Pixel>, from: nat, w: nat, c: nat, scale: nat, dc: nat)
    requires from + w <= |last| && c < w && scale <= 1 && dc < 0x1_0000
    ensures scale == 0 ==> Shade(last, from, w, c, scale, dc) == dc
    ensures scale == 1 && (w == 1 || c % 2 == 0) ==>
              Shade(last, from, w, c, scale, dc) == (last[from + c] + dc) % 0x1_0000
    ensures scale == 1 && w > 1 && c % 2 == 1 ==>
              Shade(last, from, w, c, scale, dc)
              == (last[from + c] + dc + if last[from + c - 1] + dc >= 0x1_0000 then 1 else 0) % 0x1_0000
  {
  }

  /** Filled leaves are of one colour; kept ones do not change; moved ones are copies shifted by the same
      amount, where two neighbouring pixels are one number and what the first carries goes to the second. */
  lemma LeafMeans(e: Source, leaf: Leaf, px: nat, py: nat, before: Pixel)
    requires Sane(e) && Proper(e, leaf) && Covers(leaf.block, px, py)
    ensures var p := LeafPixel(e, leaf, px, py, before);
            match leaf.fill
            case Keep => p == before
            case Moved(from, scale, dc) =>
              var place := from + (py - leaf.block.y) * e.width + (px - leaf.block.x);
              var c := px - leaf.block.x;
              && (scale == 0 ==> p == dc)
              && (scale == 1 ==> 0 <= place < |e.last|)
              && (scale == 1 && (leaf.block.log2w == 0 || c % 2 == 0) ==> p == (e.last[place] + dc) % 0x1_0000)
              && (scale == 1 && leaf.block.log2w > 0 && c % 2 == 1 ==>
                    && place > 0
                    && p == (e.last[place] + dc + if e.last[place - 1] + dc >= 0x1_0000 then 1 else 0) % 0x1_0000)
            case Raw(first, second) => p == if px == leaf.block.x && py == leaf.block.y then first else second
  {
    hide Shade;
    match leaf.fill
    case Keep =>
    case Raw(_, _) =>
    case Moved(from, scale, dc) =>
      var w, r := Side(leaf.block.log2w), py - leaf.block.y;
      RowInRange(e, leaf.block, from, r);
      ShadeMeans(e.last, From(e, from, scale, r), w, px - leaf.block.x, scale, dc);
  }
}
