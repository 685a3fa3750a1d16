/** The decoder of P frames: reads three streams and writes one frame buffer from another. */
module PFrameDecoder {

  import opened BlockTypes
  import opened Bytes
  import opened PBlocks
  import opened Painting
  import opened PFrames

  lemma SumSplits(low: nat, high: nat)
    ensures var sum := (low + 0x1_0000 * high) % 0x1_0000_0000;
            sum % 0x1_0000 == low % 0x1_0000 && sum / 0x1_0000 == (high + low / 0x1_0000) % 0x1_0000
  {
  }

  /** Adding to two pixels at once is adding to each, with a carry from the first to the second. */
  lemma PairSplits(a: Pixel, b: Pixel, scale: nat, dc: nat)
    requires scale <= 1 && dc < 0x1_0000
    ensures var sum := ((a + 0x1_0000 * b) * scale + dc * 0x1_0001) % 0x1_0000_0000;
            sum % 0x1_0000 == Low(a, scale, dc) && sum / 0x1_0000 == High(a, b, scale, dc)
  {
    SumSplits(scale * a + dc, scale * b + dc);
    assert (a + 0x1_0000 * b) * scale + dc * 0x1_0001 == (scale * a + dc) + 0x1_0000 * (scale * b + dc) by {
      if scale == 0 {
      } else {
        assert scale == 1;
      }
    }
  }

  lemma OneSplits(a: Pixel, scale: nat, dc: nat)
    requires scale <= 1 && dc < 0x1_0000
    ensures (scale * a + dc * 0x1_0001) % 0x1_0000 == Low(a, scale, dc)
  {
  }

  /** A row is its left part and its right part. */
  lemma RowSplits(last: seq<Pixel>, from: nat, w: nat, scale: nat, dc: nat)
    requires w % 2 == 0 && from + w + 2 <= |last| && scale <= 1
    ensures Row(last, from, w + 2, scale, dc) == Row(last, from, w, scale, dc) + Row(last, from + w, 2, scale, dc)
  {
  }

  lemma RowOfTwo(last: seq<Pixel>, from: nat, scale: nat, dc: nat)
    requires from + 2 <= |last| && scale <= 1
    ensures Row(last, from, 2, scale, dc) == [Low(last[from], scale, dc), High(last[from], last[from + 1], scale, dc)]
  {
  }

  lemma HalfDown(e: Source, b: Block)
    requires 0 < b.log2h <= 3
    ensures At(e, Lower(b).x, Lower(b).y) == At(e, b.x, b.y) + e.width * Side(b.log2h - 1)
  {
  }

  lemma HalfRight(e: Source, b: Block)
    requires 0 < b.log2w <= 3
    ensures At(e, Right(b).x, Right(b).y) == At(e, b.x, b.y) + Side(b.log2w - 1)
  {
  }

  lemma PaintOne(e: Source, f: seq<Pixel>, leaf: Leaf)
    requires Sane(e) && Proper(e, leaf) && |f| == e.width * e.height
    ensures PaintAll(e, f, [leaf]) == PaintLeaf(e, f, leaf) && PaintAll(e, f, []) == f
    ensures leaf.fill.Keep? ==> PaintLeaf(e, f, leaf) == f
  {
  }

  /** Picture g and readers r are what a parse makes of picture f. */
  ghost predicate Done(e: Source, p: Parsed, f: seq<Pixel>, g: seq<Pixel>, r: Readers, ok: bool)
    requires Sane(e) && |f| == e.width * e.height
  {
    ok == p.ok && r == p.readers && AllProper(e, p.leaves) && g == PaintAll(e, f, p.leaves)
  }

  lemma DoneBoth(e: Source, p: Parsed, q: Parsed, f: seq<Pixel>, g: seq<Pixel>, h: seq<Pixel>,
                 r: Readers, s: Readers, ok: bool)
    requires Sane(e) && |f| == |g| == e.width * e.height
    requires Done(e, p, f, g, r, true) && Done(e, q, g, h, s, ok)
    ensures Done(e, Both(p, q), f, h, s, ok)
  {
    PaintAppend(e, f, p.leaves, q.leaves);
  }

  lemma DoneNothing(e: Source, f: seq<Pixel>, r: Readers)
    requires Sane(e) && |f| == e.width * e.height
    ensures Done(e, Parsed(true, r, []), f, f, r, true)
  {
  }

  lemma BothNothing(p: Parsed, r: Readers)
    ensures Both(Parsed(true, r, []), p) == p
    ensures p.ok && p.readers == r ==> Both(p, Parsed(true, r, [])) == p
  {
  }

  lemma BothOk(p: Parsed, q: Parsed)
    ensures Both(p, q).ok == (p.ok && q.ok) && (!p.ok ==> Both(p, q) == p)
  {
  }

  lemma RowsUnfold(e: Source, r: Readers, y: nat)
    requires Whole(e) && y % 8 == 0
    ensures ParseRows(e, r, y) == if y < e.height then Rest(e, r, 0, y) else Parsed(true, r, [])
  {
  }

  lemma BlockInside(e: Source, x: nat, y: nat)
    requires Whole(e) && x % 8 == 0 && y % 8 == 0 && x < e.width && y < e.height
    ensures Inside(e, Block(x, y, 3, 3)) && At(e, x, y) == At(e, 0, y) + x
  {
  }

  lemma EightDown(e: Source, y: nat)
    ensures At(e, 0, y + 8) == At(e, 0, y) + 8 * e.width
  {
  }

  lemma DoneReaders(e: Source, p: Parsed, f: seq<Pixel>, g: seq<Pixel>, r: Readers, ok: bool)
    requires Sane(e) && |f| == e.width * e.height && Done(e, p, f, g, r, ok)
    ensures ok == p.ok && r == p.readers && |g| == |f|
  {
  }

  lemma DoneFirst(e: Source, p: Parsed, q: Parsed, f: seq<Pixel>, g: seq<Pixel>, r: Readers)
    requires Sane(e) && |f| == e.width * e.height && Done(e, p, f, g, r, false)
    ensures Done(e, Both(p, q), f, g, r, false)
  {
  }

  /** Two raw pixels lie side by side or one below the other. */
  lemma RawPainted(e: Source, f: seq<Pixel>, b: Block, first: Pixel, second: Pixel)
    requires Sane(e) && Inside(e, b) && b.log2w + b.log2h == 1 && |f| == e.width * e.height
    ensures var d := At(e, b.x, b.y);
            var g := PaintLeaf(e, f, Leaf(b, Raw(first, second)));
            if b.log2w == 1 then d + 2 <= |f| && g == Splice(f, d, [first, second])
            else d + e.width < |f| && d < d + e.width && g == Splice(Splice(f, d, [first]), d + e.width, [second])
  {
    RowInside(e, b, 0);
    RowInside(e, b, Side(b.log2h) - 1);
    NextRow(e, b.x, b.y);
    var leaf := Leaf(b, Raw(first, second));
    assert PaintRows(e, f, leaf, 0) == f;
    hide Splice, At;
    assert PaintRows(e, f, leaf, 1) == Splice(f, At(e, b.x, b.y), RowPixels(e, leaf, 0));
  }

  lemma NextRow(e: Source, x: nat, y: nat)
    ensures At(e, x, y + 1) == At(e, x, y) + e.width && At(e, x, 0) == x
  {
  }

  class Decoder {
    const version: nat
    const width: nat
    const height: nat
    const mv: seq<int>
    const bits: seq<bool>
    const bytes: seq<byte>
    const words: seq<byte>
    const frame: array<Pixel>
    const last: array<Pixel>
    var bit: nat
    var byt: nat
    var word: nat

    constructor (e: Source, frame: array<Pixel>, last: array<Pixel>)
      requires Whole(e) && frame != last && frame.Length == last.Length && last[..] == e.last
      ensures Valid() && E() == e && Now() == Readers(0, 0, 0) && this.frame == frame && this.last == last
    {
      version, width, height, mv, bits, bytes, words := e.version, e.width, e.height, e.mv, e.bits, e.bytes, e.words;
      this.frame, this.last := frame, last;
      bit, byt, word := 0, 0, 0;
    }

    ghost function E(): Source
      reads this, last
    {
      Source(version, width, height, mv, bits, bytes, words, last[..])
    }

    function Now(): Readers
      reads this
    {
      Readers(bit, byt, word)
    }

    ghost predicate Valid()
      reads this, last, frame
    {
      Sane(E()) && width % 8 == 0 && height % 8 == 0 && frame != last && frame.Length == width * height
    }

    /** Writes two pixels from two. */
    method PutPair(d: nat, s: nat, scale: nat, dc: nat)
      requires Valid() && scale <= 1 && dc < 0x1_0000 && d + 2 <= frame.Length && s + 2 <= last.Length
      modifies frame
      ensures frame[..] == Splice(old(frame[..]), d, Row(last[..], s, 2, scale, dc))
    {
      hide Low, High, Row;
      RowOfTwo(last[..], s, scale, dc);
      PairSplits(last[s], last[s + 1], scale, dc);
      var sum := ((last[s] + 0x1_0000 * last[s + 1]) * scale + dc * 0x1_0001) % 0x1_0000_0000;
      frame[d] := sum % 0x1_0000;
      frame[d + 1] := sum / 0x1_0000;
    }

    /** Writes a row of 2^log2w pixels. */
    method PutRow(d: nat, s: nat, log2w: nat, scale: nat, dc: nat)
      requires Valid() && scale <= 1 && dc < 0x1_0000 && log2w <= 3
      requires d + Side(log2w) <= frame.Length && s + Side(log2w) <= last.Length
      modifies frame
      ensures frame[..] == Splice(old(frame[..]), d, Row(last[..], s, Side(log2w), scale, dc))
    {
      if log2w == 0 {
        OneSplits(last[s], scale, dc);
        frame[d] := (scale * last[s] + dc * 0x1_0001) % 0x1_0000;
      } else {
        PutPairs(d, s, Side(log2w), scale, dc);
      }
    }

    method PutPairs(d: nat, s: nat, w: nat, scale: nat, dc: nat)
      requires Valid() && scale <= 1 && dc < 0x1_0000 && w % 2 == 0
      requires d + w <= frame.Length && s + w <= last.Length
      modifies frame
      ensures frame[..] == Splice(old(frame[..]), d, Row(last[..], s, w, scale, dc))
    {
      hide Row, Splice;
      var c := 0;
      ghost var f, from := frame[..], last[..];
      SpliceNothing(f, d, Row(from, s, 0, scale, dc));
      while c < w
        invariant 0 <= c <= w && c % 2 == 0
        invariant frame[..] == Splice(f, d, Row(from, s, c, scale, dc))
      {
        RowSplits(from, s, c, scale, dc);
        SpliceTwice(f, d, Row(from, s, c, scale, dc), Row(from, s + c, 2, scale, dc));
        PutPair(d + c, s + c, scale, dc);
        c := c + 2;
      }
    }

    /** Writes a block of rows, from a place that moves along unless the scale is zero. */
    method Mcdc(d: nat, s: nat, log2w: nat, h: nat, scale: nat, dc: nat, ghost b: Block)
      requires Valid() && Proper(E(), Leaf(b, Moved(s, scale, dc)))
      requires log2w == b.log2w && h == Side(b.log2h) && d == At(E(), b.x, b.y)
      modifies frame
      ensures frame[..] == PaintLeaf(E(), old(frame[..]), Leaf(b, Moved(s, scale, dc)))
    {
      hide Splice, Row, Side;
      ghost var e, f, leaf := E(), frame[..], Leaf(b, Moved(s, scale, dc));
      var dst, src, i := d, s, 0;
      while i < h
        invariant i <= h && E() == e
        invariant dst == At(e, b.x, b.y + i) && src == From(e, s, scale, i)
        invariant frame[..] == PaintRows(e, f, leaf, i)
      {
        RowInside(e, b, i);
        RowInRange(e, b, s, i);
        PutRow(dst, src, log2w, scale, dc);
        NextRow(e, b.x, b.y + i);
        NextRow(e, s, i);
        if scale != 0 {
          src := src + width;
        }
        dst := dst + width;
        i := i + 1;
      }
    }

    /** Reads a code word. */
    method GetCode(log2w: nat, log2h: nat, ghost b: Block) returns (code: nat)
      requires Valid() && Inside(E(), b) && log2w == b.log2w && log2h == b.log2h && log2w + log2h > 0
      modifies `bit
      ensures (code, Now()) == NextCode(E(), old(Now()), b)
    {
      hide Words, Code, Window, Sane, Side;
      var window := Window(bits, bit);
      LegalCodes(version > 1, log2w, log2h, window);
      var words := Words(version > 1, Shape(log2w, log2h));
      code := Code(words, window);
      bit := bit + words[code].length;
    }

    /** What has been read and painted is what the parse says. */
    ghost predicate Did(p: Parsed, f: seq<Pixel>, ok: bool)
      requires Valid() && |f| == width * height
      reads this, last, frame
    {
      Done(E(), p, f, frame[..], Now(), ok)
    }

    /** Paints a block from a place in the last picture, if it lies inside. */
    method MoveBlock(d: nat, from: int, log2w: nat, log2h: nat, scale: nat, dc: nat, ghost b: Block) returns (ok: bool)
      requires Valid() && Inside(E(), b) && log2w == b.log2w && log2h == b.log2h && d == At(E(), b.x, b.y)
      requires scale <= 1 && dc < 0x1_0000
      modifies frame
      ensures Did(MovedLeaf(E(), Now(), b, from, scale, dc), old(frame[..]), ok)
    {
      hide PaintRows, At, Side;
      var h := Side(log2h);
      if 0 > from || from > width * (height - h + 1) - Side(log2w) {
        return false;
      }
      PaintOne(E(), frame[..], Leaf(b, Moved(from, scale, dc)));
      Mcdc(d, from, log2w, h, scale, dc, b);
      return true;
    }

    /** Writes two raw pixels. */
    method PutRaw(d: nat, log2w: nat, ghost b: Block)
      requires Valid() && Inside(E(), b) && log2w == b.log2w && log2w + b.log2h == 1 && d == At(E(), b.x, b.y)
      requires word + 4 <= |words|
      modifies `word, frame
      ensures word == old(word) + 4
      ensures frame[..]
              == PaintLeaf(E(), old(frame[..]), Leaf(b, Raw(Le16(words, old(word)), Le16(words, old(word) + 2))))
    {
      ghost var e, f := E(), frame[..];
      RawPainted(e, f, b, Le16(words, word), Le16(words, word + 2));
      hide At, Side, Sane, PaintLeaf, Inside;
      frame[d] := Le16(words, word);
      frame[if log2w > 0 then d + 1 else d + width] := Le16(words, word + 2);
      word := word + 4;
    }

    /** Reads and paints a leaf. */
    method DecodeLeaf(code: nat, d: nat, s: nat, log2w: nat, log2h: nat, ghost b: Block) returns (ok: bool)
      requires Valid() && Inside(E(), b) && log2w == b.log2w && log2h == b.log2h && d == s == At(E(), b.x, b.y)
      requires code <= 6 && code != 1 && code != 2 && (code == 6 ==> log2w + log2h == 1)
      modifies `byt, `word, frame
      ensures Did(ParseLeaf(E(), old(Now()), code, b), old(frame[..]), ok)
    {
      hide PaintLeaf, At, Side, MovedLeaf;
      var src: int, scale, dc := s, 1, 0;
      if code == 6 {
        if |words| - word < 4 {
          return false;
        }
        PaintOne(E(), frame[..], Leaf(b, Raw(Le16(words, word), Le16(words, word + 2))));
        PutRaw(d, log2w, b);
        return true;
      }
      if (code == 0 || code == 4) && |bytes| - byt < 1 {
        return false;
      }
      if code == 0 {
        src := src + mv[bytes[byt]];
        byt := byt + 1;
      } else if code == 3 && version >= 2 {
        PaintOne(E(), frame[..], Leaf(b, Keep));
        return true;
      } else if code == 4 {
        src := src + mv[bytes[byt]];
        byt := byt + 1;
        if |words| - word < 2 {
          return false;
        }
        dc := Le16(words, word);
        word := word + 2;
      } else if code == 5 {
        if |words| - word < 2 {
          return false;
        }
        HereIsInRange(E(), b);
        assert InRange(E(), b, src);
        scale := 0;
        dc := Le16(words, word);
        word := word + 2;
      }
      ok := MoveBlock(d, src, log2w, log2h, scale, dc, b);
    }

    /** Reads and paints a block, as it is split. */
    method DecodePBlock(d: nat, s: nat, log2w: nat, log2h: nat, ghost b: Block) returns (ok: bool)
      requires Valid() && Inside(E(), b) && log2w == b.log2w && log2h == b.log2h && log2w + log2h > 0
      requires d == s == At(E(), b.x, b.y)
      modifies `bit, `byt, `word, frame
      ensures Did(Parse(E(), old(Now()), b), old(frame[..]), ok)
      decreases log2w + log2h, 0
    {
      hide At, Side, ParseLeaf, Done, NextCode, Sane;
      ghost var e, f, r := E(), frame[..], Now();
      var code := GetCode(log2w, log2h, b);
      if code == 1 {
        HalvesCover(e, b, 0, 0);
        HalfDown(e, b);
        ok := DecodeHalves(d, s, d + width * Side(log2h - 1), log2w, log2h - 1, Upper(b), Lower(b));
      } else if code == 2 {
        HalvesCover(e, b, 0, 0);
        HalfRight(e, b);
        ok := DecodeHalves(d, s, d + Side(log2w - 1), log2w - 1, log2h, Left(b), Right(b));
      } else {
        ok := DecodeLeaf(code, d, s, log2w, log2h, b);
      }
    }

    /** The two halves of a block, one after the other. */
    method DecodeHalves(d: nat, s: nat, d2: nat, log2w: nat, log2h: nat, ghost b: Block, ghost b2: Block)
      returns (ok: bool)
      requires Valid() && log2w + log2h > 0 && d == s == At(E(), b.x, b.y) && d2 == At(E(), b2.x, b2.y)
      requires Inside(E(), b) && log2w == b.log2w && log2h == b.log2h
      requires Inside(E(), b2) && log2w == b2.log2w && log2h == b2.log2h
      modifies `bit, `byt, `word, frame
      ensures var p := Parse(E(), old(Now()), b);
              Did(Both(p, Parse(E(), p.readers, b2)), old(frame[..]), ok)
      decreases log2w + log2h, 1
    {
      hide At, Side, Parse, Done, Sane;
      ghost var e, f, r := E(), frame[..], Now();
      ghost var p := Parse(e, r, b);
      ok := DecodePBlock(d, s, log2w, log2h, b);
      ghost var g, r1 := frame[..], Now();
      if !ok {
        DoneFirst(e, p, Parse(e, p.readers, b2), f, g, r1);
        return;
      }
      assert r1 == p.readers by { DoneReaders(e, p, f, g, r1, true); }
      ok := DecodePBlock(d2, d2, log2w, log2h, b2);
      DoneBoth(e, p, Parse(e, r1, b2), f, g, frame[..], r1, Now(), ok);
    }

    /** Reads and paints a frame, block by block. */
    method DecodePFrame() returns (ok: bool)
      requires Valid()
      modifies `bit, `byt, `word, frame
      ensures Did(ParseRows(E(), old(Now()), 0), old(frame[..]), ok)
    {
      hide At, Parse, Done, Sane, ParseRows, Rest, Both, Inside;
      ghost var e, f, total := E(), frame[..], ParseRows(E(), Now(), 0);
      ghost var done := Parsed(true, Now(), []);
      DoneNothing(e, f, Now());
      BothNothing(ParseRows(e, Now(), 0), Now());
      var start, y := 0, 0;
      NextRow(e, 0, 0);
      while y < height
        invariant Valid() && E() == e && y % 8 == 0 && start == At(e, 0, y)
        invariant done.ok && Done(e, done, f, frame[..], Now(), true)
        invariant Both(done, ParseRows(e, Now(), y)) == total
      {
        assert ParseRows(e, Now(), y) == Rest(e, Now(), 0, y) by { RowsUnfold(e, Now(), y); }
        var x := 0;
        while x < width
          invariant Valid() && E() == e && x % 8 == 0
          invariant done.ok && Done(e, done, f, frame[..], Now(), true)
          invariant Both(done, Rest(e, Now(), x, y)) == total
        {
          ghost var b, r, g := Block(x, y, 3, 3), Now(), frame[..];
          BlockInside(e, x, y);
          ghost var p := Parse(e, r, b);
          RestUnfolds(e, r, x, y);
          DoneReaders(e, done, f, g, r, true);
          ok := DecodePBlock(start + x, start + x, 3, 3, b);
          DoneReaders(e, p, g, frame[..], Now(), ok);
          DoneBoth(e, done, p, f, g, frame[..], r, Now(), ok);
          BothAssociates(done, p, Rest(e, Now(), x + 8, y));
          BothOk(done, p);
          done := Both(done, p);
          if !ok {
            BothOk(done, Rest(e, Now(), x + 8, y));
            return;
          }
          x := x + 8;
        }
        RestUnfolds(e, Now(), x, y);
        EightDown(e, y);
        start := start + 8 * width;
        y := y + 8;
      }
      RowsUnfold(e, Now(), y);
      DoneReaders(e, done, f, frame[..], Now(), true);
      BothNothing(done, Now());
      return true;
    }
  }
}
