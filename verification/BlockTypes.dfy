/** The codes that say how a block of a P frame is split or filled. */
module BlockTypes {

  /** A code word: its bits as a number, and how many there are; none for a code that does not occur. */
  datatype CodeWord = CodeWord(bits: nat, length: nat)

  /** The words of codes 0 to 6, by the kind of stream and the shape of the block: at least two pixels
      each way; long and one pixel high; long and one pixel wide; two pixels. */
  function Words(late: bool, shape: nat): (t: seq<CodeWord>)
    requires shape < 4
    ensures |t| == 7
  {
    if late then
      if shape == 0 then
        [CodeWord(0, 1), CodeWord(2, 2), CodeWord(6, 3), CodeWord(14, 4),
         CodeWord(30, 5), CodeWord(31, 5), CodeWord(0, 0)]
      else if shape == 1 then
        [CodeWord(0, 1), CodeWord(0, 0), CodeWord(2, 2), CodeWord(6, 3),
         CodeWord(14, 4), CodeWord(15, 4), CodeWord(0, 0)]
      else if shape == 2 then
        [CodeWord(0, 1), CodeWord(2, 2), CodeWord(0, 0), CodeWord(6, 3),
         CodeWord(14, 4), CodeWord(15, 4), CodeWord(0, 0)]
      else
        [CodeWord(0, 1), CodeWord(0, 0), CodeWord(0, 0), CodeWord(2, 2),
         CodeWord(6, 3), CodeWord(14, 4), CodeWord(15, 4)]
    else
      if shape == 0 then
        [CodeWord(1, 2), CodeWord(4, 3), CodeWord(5, 3), CodeWord(0, 2), CodeWord(6, 3), CodeWord(7, 3), CodeWord(0, 0)]
      else if shape == 1 then
        [CodeWord(1, 2), CodeWord(0, 0), CodeWord(2, 2), CodeWord(0, 2), CodeWord(6, 3), CodeWord(7, 3), CodeWord(0, 0)]
      else if shape == 2 then
        [CodeWord(1, 2), CodeWord(2, 2), CodeWord(0, 0), CodeWord(0, 2), CodeWord(6, 3), CodeWord(7, 3), CodeWord(0, 0)]
      else
        [CodeWord(1, 2), CodeWord(0, 0), CodeWord(0, 0), CodeWord(0, 2), CodeWord(2, 2), CodeWord(6, 3), CodeWord(7, 3)]
  }

  /** The first bits of a five-bit window. */
  function Front(window: nat, length: nat): nat
    requires 1 <= length <= 5
  {
    if length == 1 then window / 16
    else if length == 2 then window / 8
    else if length == 3 then window / 4
    else if length == 4 then window / 2
    else window
  }

  predicate Fits(w: CodeWord, window: nat) {
    1 <= w.length <= 5 && Front(window, w.length) == w.bits
  }

  /** The code whose word a window begins with; -1 if there is none. */
  function Code(t: seq<CodeWord>, window: nat, from: nat := 0): (c: int)
    requires from <= |t|
    ensures -1 <= c < |t|
    ensures c >= 0 ==> from <= c && Fits(t[c], window)
    ensures forall k :: from <= k < (if c < 0 then |t| else c) ==> !Fits(t[k], window)
    decreases |t| - from
  {
    if from == |t| then -1
    else if Fits(t[from], window) then from
    else Code(t, window, from + 1)
  }

  /** The shape of a block of 2^log2w by 2^log2h pixels; one pixel alone has none. */
  function Shape(log2w: nat, log2h: nat): (s: nat)
    requires log2w <= 3 && log2h <= 3
  {
    if log2h == 0 then (if log2w == 0 then 255 else if log2w == 1 then 3 else 1)
    else if log2w == 0 then (if log2h == 1 then 3 else 2)
    else 0
  }

  lemma SomeWordFits(late: bool, shape: nat, window: nat)
    requires shape < 4 && window < 32
    ensures exists k :: 0 <= k < 7 && Fits(Words(late, shape)[k], window)
  {
    var t := Words(late, shape);
    assert Fits(t[0], window) || Fits(t[1], window) || Fits(t[2], window) || Fits(t[3], window)
        || Fits(t[4], window) || Fits(t[5], window) || Fits(t[6], window);
  }

  lemma NoTwoFit(late: bool, shape: nat, window: nat, i: nat, j: nat)
    requires shape < 4 && window < 32 && i < j < 7
    ensures !Fits(Words(late, shape)[i], window) || !Fits(Words(late, shape)[j], window)
  {
  }

  /** Every window begins with exactly one word. */
  lemma OneWordFits(late: bool, shape: nat, window: nat)
    requires shape < 4 && window < 32
    ensures var t := Words(late, shape); var c := Code(t, window);
            0 <= c <= 6 && forall k :: 0 <= k < 7 ==> (Fits(t[k], window) <==> k == c)
  {
    var t := Words(late, shape);
    SomeWordFits(late, shape, window);
    hide Words, Fits;
    forall i, j | 0 <= i < j < 7
      ensures !Fits(t[i], window) || !Fits(t[j], window)
    {
      NoTwoFit(late, shape, window, i, j);
    }
  }

  /** A block is split only where both halves are blocks of at least two pixels; two raw pixels stand
      only for a block of two. */
  lemma LegalCodes(late: bool, log2w: nat, log2h: nat, window: nat)
    requires log2w <= 3 && log2h <= 3 && log2w + log2h > 0 && window < 32
    ensures Shape(log2w, log2h) < 4
    ensures var c := Code(Words(late, Shape(log2w, log2h)), window);
            && 0 <= c <= 6
            && (c == 1 ==> log2h > 0 && log2w + log2h > 1)
            && (c == 2 ==> log2w > 0 && log2w + log2h > 1)
            && (c == 6 ==> log2w + log2h == 1)
  {
    OneWordFits(late, Shape(log2w, log2h), window);
  }

  // ------------------------------------------------------------------ the order of the words

  /** A word at the front of five bits. */
  function Placed(w: CodeWord): nat
    requires 1 <= w.length <= 5
  {
    if w.length == 1 then 16 * w.bits
    else if w.length == 2 then 8 * w.bits
    else if w.length == 3 then 4 * w.bits
    else if w.length == 4 then 2 * w.bits
    else w.bits
  }

  /** The next code with a word, or 7. */
  function CodeAfter(t: seq<CodeWord>, i: nat): (k: nat)
    requires |t| == 7 && i < 7
    ensures i < k <= 7 && (k < 7 ==> t[k].length > 0)
    decreases 7 - i
  {
    if i == 6 || t[i + 1].length > 0 then i + 1 else CodeAfter(t, i + 1)
  }

  /** Later streams: the words that occur increase with the code; each is one bit longer than the one
      before, but for the last, which is as long as that. */
  lemma LateWords(shape: nat, i: nat)
    requires shape < 4 && i < 7 && Words(true, shape)[i].length > 0
    ensures var t := Words(true, shape);
            var k := CodeAfter(t, i);
            k < 7 ==>
              && 0 < t[i].length <= t[k].length <= 5 && Placed(t[i]) < Placed(t[k])
              && t[k].length == if CodeAfter(t, k) == 7 then t[i].length else t[i].length + 1
    ensures Words(true, shape)[0].length == 1
  {
    var t := Words(true, shape);
    AllCodesAfter(t);
    hide CodeAfter;
  }

  lemma AllCodesAfter(t: seq<CodeWord>)
    requires |t| == 7
    ensures forall i :: 0 <= i < 7 ==>
              CodeAfter(t, i) == if i == 6 then 7 else if t[i + 1].length > 0 then i + 1 else CodeAfter(t, i + 1)
  {
    hide Words;
    CodeAfterSkips(t, 0);
    CodeAfterSkips(t, 1);
    CodeAfterSkips(t, 2);
    CodeAfterSkips(t, 3);
    CodeAfterSkips(t, 4);
    CodeAfterSkips(t, 5);
    CodeAfterSkips(t, 6);
  }

  lemma CodeAfterSkips(t: seq<CodeWord>, i: nat)
    requires |t| == 7 && i < 7
    ensures CodeAfter(t, i) == if i == 6 then 7 else if t[i + 1].length > 0 then i + 1 else CodeAfter(t, i + 1)
  {
  }

  /** Earlier streams: the word of the code for what stays comes first and the others increase with the
      code; a later one is never shorter, and all have two bits or three. */
  lemma EarlyWords(shape: nat, i: nat, k: nat)
    requires shape < 4 && i < 7 && k < 7 && i != k
    requires Words(false, shape)[i].length > 0 && Words(false, shape)[k].length > 0
    ensures var t := Words(false, shape);
            && 2 <= t[i].length <= 3
            && (i == 3 || (i < k && k != 3) ==> Placed(t[i]) < Placed(t[k]) && t[i].length <= t[k].length)
  {
  }

  /** Which codes have a word: splits across a side of two or more of blocks of more than two pixels, raw
      pixels for blocks of two, and the others always. */
  lemma OccurringCodes(late: bool, log2w: nat, log2h: nat, code: nat)
    requires log2w <= 3 && log2h <= 3 && log2w + log2h > 0 && code < 7
    ensures Shape(log2w, log2h) < 4
    ensures Words(late, Shape(log2w, log2h))[code].length > 0 <==>
            match code
            case 1 => log2h > 0 && log2w + log2h > 1
            case 2 => log2w > 0 && log2w + log2h > 1
            case 6 => log2w + log2h == 1
            case _ => true
  {
  }
}
