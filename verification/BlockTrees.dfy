/** Blocks as trees, written to the streams of a P frame: what a reader must give back. */
module BlockTrees {

  import opened Sums
  import opened BitStrings
  import opened BlockTypes
  import opened Bytes
  import opened PBlocks

  /** How a block is made: of two halves, or by one of the codes for leaves. */
  datatype Tree =
    | Stacked(upper: Tree, lower: Tree)
    | Beside(left: Tree, right: Tree)
    | Copy(vector: byte)
    | Same
    | Shift(vector: byte, dc: Pixel)
    | Flat(dc: Pixel)
    | Two(first: Pixel, second: Pixel)

  function CodeOf(t: Tree): (c: nat)
    ensures c <= 6
  {
    match t
    case Copy(_) => 0
    case Stacked(_, _) => 1
    case Beside(_, _) => 2
    case Same => 3
    case Shift(_, _) => 4
    case Flat(_) => 5
    case Two(_, _) => 6
  }

  function Here(e: Source, b: Block): nat {
    At(e, b.x, b.y)
  }

  /** Trees a block can have: halves of two pixels or more, vectors that stay in the picture, and raw
      pixels for blocks of two. */
  predicate Fitting(e: Source, b: Block, t: Tree)
    requires Sane(e)
    decreases t
  {
    && Inside(e, b) && b.log2w + b.log2h > 0
    && match t
       case Stacked(u, l) => b.log2h > 0 && Fitting(e, Upper(b), u) && Fitting(e, Lower(b), l)
       case Beside(l, r) => b.log2w > 0 && Fitting(e, Left(b), l) && Fitting(e, Right(b), r)
       case Copy(v) => InRange(e, b, Here(e, b) + e.mv[v])
       case Shift(v, _) => InRange(e, b, Here(e, b) + e.mv[v])
       case Two(_, _) => b.log2w + b.log2h == 1
       case _ => true
  }

  /** The leaves of a tree, from the top and from the left. */
  function Leaves(e: Source, b: Block, t: Tree): seq<Leaf>
    requires Sane(e) && Fitting(e, b, t)
    decreases t
  {
    match t
    case Stacked(u, l) => Leaves(e, Upper(b), u) + Leaves(e, Lower(b), l)
    case Beside(l, r) => Leaves(e, Left(b), l) + Leaves(e, Right(b), r)
    case Copy(v) => [Leaf(b, Moved(Here(e, b) + e.mv[v], 1, 0))]
    case Same => [Leaf(b, if e.version >= 2 then Keep else Moved(Here(e, b), 1, 0))]
    case Shift(v, dc) => [Leaf(b, Moved(Here(e, b) + e.mv[v], 1, dc))]
    case Flat(dc) => [Leaf(b, Moved(Here(e, b), 0, dc))]
    case Two(first, second) => [Leaf(b, Raw(first, second))]
  }

  // ------------------------------------------------------------------ writing

  datatype Written = Written(bits: seq<bool>, bytes: seq<byte>, words: seq<byte>)

  function Join(a: Written, b: Written): Written {
    Written(a.bits + b.bits, a.bytes + b.bytes, a.words + b.words)
  }

  function CodeBits(e: Source, b: Block, code: nat): seq<bool>
    requires Inside(e, b) && b.log2w + b.log2h > 0 && code <= 6
  {
    var w := Words(e.version > 1, Shape(b.log2w, b.log2h))[code];
    Bits(w.bits, w.length)
  }

  function Write(e: Source, b: Block, t: Tree): Written
    requires Sane(e) && Fitting(e, b, t)
    decreases t
  {
    var code := CodeBits(e, b, CodeOf(t));
    match t
    case Stacked(u, l) => Join(Written(code, [], []), Join(Write(e, Upper(b), u), Write(e, Lower(b), l)))
    case Beside(l, r) => Join(Written(code, [], []), Join(Write(e, Left(b), l), Write(e, Right(b), r)))
    case Copy(v) => Written(code, [v], [])
    case Same => Written(code, [], [])
    case Shift(v, dc) => Written(code, [v], Le16Bytes(dc))
    case Flat(dc) => Written(code, [], Le16Bytes(dc))
    case Two(first, second) => Written(code, [], Le16Bytes(first) + Le16Bytes(second))
  }

  // ------------------------------------------------------------------ reading back

  /** The streams go on with what was written. */
  predicate Ahead(e: Source, r: Readers, w: Written) {
    && r.bit + |w.bits| <= |e.bits| && e.bits[r.bit..r.bit + |w.bits|] == w.bits
    && r.byt + |w.bytes| <= |e.bytes| && e.bytes[r.byt..r.byt + |w.bytes|] == w.bytes
    && r.word + |w.words| <= |e.words| && e.words[r.word..r.word + |w.words|] == w.words
  }

  function Past(r: Readers, w: Written): Readers {
    Readers(r.bit + |w.bits|, r.byt + |w.bytes|, r.word + |w.words|)
  }

  lemma PartsAhead(e: Source, r: Readers, v: Written, w: Written)
    requires Ahead(e, r, Join(v, w))
    ensures Ahead(e, r, v) && Ahead(e, Past(r, v), w) && Past(Past(r, v), w) == Past(r, Join(v, w))
  {
    PartOf(e.bits, r.bit, v.bits, w.bits);
    PartOf(e.bytes, r.byt, v.bytes, w.bytes);
    PartOf(e.words, r.word, v.words, w.words);
  }

  lemma FrontGrows(bits: seq<bool>, at: nat, length: nat)
    requires 1 <= length <= 5
    ensures Front(Window(bits, at), length) ==
            (if length == 1 then 0 else 2 * Front(Window(bits, at), length - 1)) + BitAt(bits, at + length - 1)
  {
  }

  /** The front of a window is the number its bits stand for. */
  lemma {:induction false} FrontIsValue(bits: seq<bool>, at: nat, length: nat)
    requires 1 <= length <= 5 && at + length <= |bits|
    ensures Front(Window(bits, at), length) == Value(bits[at..at + length])
  {
    hide Front, Window;
    FrontGrows(bits, at, length);
    var p := bits[at..at + length];
    if length == 1 {
      assert p[..0] == [];
    } else {
      FrontIsValue(bits, at, length - 1);
      assert p[..length - 1] == bits[at..at + (length - 1)];
    }
  }

  lemma WordsAreShort(late: bool, shape: nat, code: nat)
    requires shape < 4 && code <= 6
    ensures var w := Words(late, shape)[code]; w.length <= 5 && w.bits < Pow2(w.length)
  {
    assert Pow2(1) == 2 && Pow2(2) == 4 && Pow2(3) == 8 && Pow2(4) == 16 && Pow2(5) == 32;
  }

  /** Every code a block can have has a word for its shape. */
  lemma CodeExists(late: bool, log2w: nat, log2h: nat, code: nat)
    requires log2w <= 3 && log2h <= 3 && log2w + log2h > 0 && code <= 6
    requires code == 1 ==> log2h > 0 && log2w + log2h > 1
    requires code == 2 ==> log2w > 0 && log2w + log2h > 1
    requires code == 6 ==> log2w + log2h == 1
    ensures Shape(log2w, log2h) < 4 && Words(late, Shape(log2w, log2h))[code].length >= 1
  {
  }

  /** A word in the stream is found as the code it stands for. */
  lemma WordIsFound(late: bool, shape: nat, code: nat, bits: seq<bool>, at: nat)
    requires shape < 4 && code <= 6
    requires var w := Words(late, shape)[code];
             w.length >= 1 && at + w.length <= |bits| && bits[at..at + w.length] == Bits(w.bits, w.length)
    ensures Code(Words(late, shape), Window(bits, at)) == code
  {
    hide Words, Bits, Window, Front, Code, Pow2;
    var w := Words(late, shape)[code];
    WordsAreShort(late, shape, code);
    ValueOfBits(w.bits, w.length);
    FrontIsValue(bits, at, w.length);
    OneWordFits(late, shape, Window(bits, at));
    assert Fits(w, Window(bits, at));
  }

  /** A code that the block can have, written, is the code that is read. */
  lemma CodeReadsBack(e: Source, r: Readers, b: Block, t: Tree)
    requires Sane(e) && Fitting(e, b, t) && Ahead(e, r, Written(CodeBits(e, b, CodeOf(t)), [], []))
    ensures NextCode(e, r, b) == (CodeOf(t), Past(r, Written(CodeBits(e, b, CodeOf(t)), [], [])))
  {
    hide Words, Code, Bits, Window, InRange, Sane, Side;
    CodeExists(e.version > 1, b.log2w, b.log2h, CodeOf(t));
    WordIsFound(e.version > 1, Shape(b.log2w, b.log2h), CodeOf(t), e.bits, r.bit);
  }

  /** Whatever tree a block has, its streams are read back to exactly its leaves, and no further. */
  lemma {:induction false} TreeReadsBack(e: Source, r: Readers, b: Block, t: Tree)
    requires Sane(e) && Fitting(e, b, t) && Ahead(e, r, Write(e, b, t))
    ensures Parse(e, r, b) == Parsed(true, Past(r, Write(e, b, t)), Leaves(e, b, t))
    decreases t
  {
    hide CodeBits, NextCode, ParseLeaf, Ahead, InRange, At, Side, Sane;
    var code := Written(CodeBits(e, b, CodeOf(t)), [], []);
    if t.Stacked? || t.Beside? {
      var first := if t.Stacked? then Upper(b) else Left(b);
      var second := if t.Stacked? then Lower(b) else Right(b);
      var (u, v) := if t.Stacked? then (t.upper, t.lower) else (t.left, t.right);
      var wu, wv := Write(e, first, u), Write(e, second, v);
      PartsAhead(e, r, code, Join(wu, wv));
      CodeReadsBack(e, r, b, t);
      var r1 := Past(r, code);
      PartsAhead(e, r1, wu, wv);
      TreeReadsBack(e, r1, first, u);
      TreeReadsBack(e, Past(r1, wu), second, v);
    } else {
      LeafReadsBack(e, r, b, t);
      CodeAhead(e, r, b, t);
      CodeReadsBack(e, r, b, t);
    }
  }

  lemma CodeAhead(e: Source, r: Readers, b: Block, t: Tree)
    requires Sane(e) && Fitting(e, b, t) && Ahead(e, r, Write(e, b, t)) && !t.Stacked? && !t.Beside?
    ensures Ahead(e, r, Written(CodeBits(e, b, CodeOf(t)), [], []))
  {
    hide CodeBits, InRange, At, Side, Inside, Le16Bytes;
  }

  /** What ParseLeaf makes of the streams behind the code. */
  ghost predicate LeafIsRead(e: Source, r: Readers, b: Block, t: Tree)
    requires Sane(e) && Fitting(e, b, t) && !t.Stacked? && !t.Beside?
  {
    ParseLeaf(e, r.(bit := r.bit + |CodeBits(e, b, CodeOf(t))|), CodeOf(t), b)
      == Parsed(true, Past(r, Write(e, b, t)), Leaves(e, b, t))
  }

  lemma VectorReadsBack(e: Source, r: Readers, b: Block, t: Tree)
    requires Sane(e) && Fitting(e, b, t) && Ahead(e, r, Write(e, b, t)) && (t.Copy? || t.Shift?)
    ensures LeafIsRead(e, r, b, t)
  {
    hide CodeBits, InRange, At, Side, Inside, Le16, Le16Bytes;
    ByteReadsBack(e.bytes, r.byt, t.vector);
    if t.Shift? {
      Le16ReadsBack(e.words, r.word, t.dc);
    }
  }

  lemma LeafReadsBack(e: Source, r: Readers, b: Block, t: Tree)
    requires Sane(e) && Fitting(e, b, t) && Ahead(e, r, Write(e, b, t)) && !t.Stacked? && !t.Beside?
    ensures LeafIsRead(e, r, b, t)
  {
    if t.Copy? || t.Shift? {
      VectorReadsBack(e, r, b, t);
    } else {
      HereIsInRange(e, b);
      hide CodeBits, InRange, At, Side, Inside, Le16, Le16Bytes;
      match t
      case Same =>
      case Flat(dc) => Le16ReadsBack(e.words, r.word, dc);
      case Two(first, second) => TwoWordsReadBack(e.words, r.word, first, second);
    }
  }

  lemma ByteReadsBack(bytes: seq<byte>, at: nat, v: byte)
    requires at + 1 <= |bytes| && bytes[at..at + 1] == [v]
    ensures bytes[at] == v
  {
  }

  lemma TwoWordsReadBack(words: seq<byte>, at: nat, first: Pixel, second: Pixel)
    requires at + 4 <= |words| && words[at..at + 4] == Le16Bytes(first) + Le16Bytes(second)
    ensures Le16(words, at) == first && Le16(words, at + 2) == second
  {
  }
}
