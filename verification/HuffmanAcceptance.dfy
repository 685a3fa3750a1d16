/** Which tables the code-table constructor accepts, and what is decoded with them. The constructor is
    known by a contract: codes that can be decoded are accepted, and clashes it comes across are not. */
module HuffmanAcceptance {
  import opened BitStrings
  import opened Sums
  import opened PrefixCodes
  import opened HuffmanTree
  import opened HuffmanDepth
  import opened HuffmanCode
  import opened HuffmanTheorems
  import opened HuffmanTwoTrees

  /** Bits of one table lookup; a word may take three. */
  const VLC_BITS: nat := 9

  /** No word begins another, and every word fits three lookups and its own length. A symbol with an
      empty word takes no part. */
  predicate Decodable(bits: seq<nat>, len: seq<nat>) {
    && |bits| == |len|
    && (forall i :: 0 <= i < |len| ==> len[i] <= 3 * VLC_BITS && (len[i] > 0 ==> bits[i] < Pow2(len[i])))
    && PrefixFree(len, Words(bits, len))
  }

  predicate Clash(bits: seq<nat>, len: seq<nat>, i: nat, k: nat) {
    && |bits| == |len| && i < |len| && k < |len|
    && 0 < len[i] < len[k] && IsPrefix(Words(bits, len)[i], Words(bits, len)[k])
  }

  /** The lookup a word ends in, from 0. */
  function Lookup(n: nat): nat
    requires n > 0
  {
    (n - 1) / VLC_BITS
  }

  /** A word that ends in the first lookup, or in the same as a longer word, begins that word. */
  predicate NoticedClash(bits: seq<nat>, len: seq<nat>) {
    exists i, k :: 0 <= i < |len| && 0 <= k < |len| && Clash(bits, len, i, k)
                   && (Lookup(len[i]) == 0 || Lookup(len[i]) == Lookup(len[k]))
  }

  type Constructor = (seq<nat>, seq<nat>) -> bool

  /** What is known of the constructor. A clash of words that end in a later lookup and in one later
      still it may or may not notice. */
  ghost predicate Meets(init: Constructor) {
    && (forall bits, len :: Decodable(bits, len) ==> init(bits, len))
    && (forall bits, len :: NoticedClash(bits, len) ==> !init(bits, len))
  }

  // ------------------------------------------------------------------ the tables of a frequency table

  function Lens(f: seq<nat>): (len: seq<nat>)
    requires ValidFrequencies(f)
    ensures |len| == SYMBOLS
  {
    BuildInv(f);
    seq(SYMBOLS, i requires 0 <= i < SYMBOLS => |Path(Build(f), i)|)
  }

  function Vals(f: seq<nat>): (bits: seq<nat>)
    requires ValidFrequencies(f)
    ensures |bits| == SYMBOLS
  {
    BuildInv(f);
    seq(SYMBOLS, i requires 0 <= i < SYMBOLS => Value(Path(Build(f), i)))
  }

  lemma TablesAre(f: seq<nat>)
    requires ValidFrequencies(f)
    ensures Tables(f, Vals(f), Lens(f))
    ensures forall bits, len :: Tables(f, bits, len) ==> bits == Vals(f) && len == Lens(f)
  {
    BuildInv(f);
  }

  /** Some used symbol has no word: it is all there is of its tree. */
  predicate Wordless(f: seq<nat>)
    requires ValidFrequencies(f)
  {
    exists i :: 0 <= i < SYMBOLS && f[i] > 0 && Lens(f)[i] == 0
  }

  lemma UnusedHasNoWord(f: seq<nat>, i: nat)
    requires ValidFrequencies(f) && i < SYMBOLS && Lens(f)[i] > 0
    ensures f[i] > 0
  {
    BuildInv(f);
    assert Build(f).weight[..SYMBOLS][i] == f[i];
  }

  lemma LensFit(f: seq<nat>, i: nat)
    requires ValidFrequencies(f) && i < SYMBOLS
    ensures Lens(f)[i] <= 22 <= 3 * VLC_BITS && Vals(f)[i] < Pow2(Lens(f)[i])
  {
    TablesAre(f);
    LengthWithin(f, Vals(f), Lens(f), i);
  }

  lemma WordIsPath(f: seq<nat>, i: nat)
    requires ValidFrequencies(f) && i < SYMBOLS
    ensures Inv(f, Build(f)) && Words(Vals(f), Lens(f))[i] == Path(Build(f), i)
  {
    TablesAre(f);
    WordsArePaths(f, Vals(f), Lens(f));
  }

  /** Beside a symbol that is a whole tree, all others share the other tree. */
  lemma OthersShareATree(f: seq<nat>, w: nat, i: nat, k: nat)
    requires ValidFrequencies(f) && Live(f) == SYMBOLS && w < SYMBOLS && Lens(f)[w] == 0
    requires i < SYMBOLS && k < SYMBOLS && Lens(f)[i] > 0 && Lens(f)[k] > 0
    ensures Inv(f, Build(f)) && Root(Build(f), i) == Root(Build(f), k)
  {
    var s := Build(f);
    var a, b := TwoRoots(f);
    UnderOne(f, s, a, b, w);
    UnderOne(f, s, a, b, i);
    UnderOne(f, s, a, b, k);
    forall x: nat | x < SYMBOLS && Lens(f)[x] > 0
      ensures Root(s, x) != Root(s, w)
    {
      if Root(s, x) == Root(s, w) {
        assert IsPrefix(Path(s, w), Path(s, x));
        LeavesEndPaths(f, s, w, x);
      }
    }
  }

  lemma WordlessIsPrefixFree(f: seq<nat>)
    requires ValidFrequencies(f) && Live(f) == SYMBOLS && Wordless(f)
    ensures PrefixFree(Lens(f), Words(Vals(f), Lens(f)))
  {
    var w :| 0 <= w < SYMBOLS && f[w] > 0 && Lens(f)[w] == 0;
    var code := Words(Vals(f), Lens(f));
    forall i, k | 0 <= i < SYMBOLS && 0 <= k < SYMBOLS && i != k && Lens(f)[i] > 0 && Lens(f)[k] > 0
      ensures !IsPrefix(code[i], code[k])
    {
      WordIsPath(f, i);
      WordIsPath(f, k);
      if IsPrefix(code[i], code[k]) {
        OthersShareATree(f, w, i, k);
        LeavesEndPaths(f, Build(f), i, k);
      }
    }
  }

  /** With all symbols in use and all of them in proper trees, some word begins a longer one. */
  lemma SomeClash(f: seq<nat>) returns (i: nat, k: nat)
    requires ValidFrequencies(f) && Live(f) == SYMBOLS && !Wordless(f)
    ensures Clash(Vals(f), Lens(f), i, k)
  {
    var s := Build(f);
    var a, b := TwoRoots(f);
    SomeNested(f, s, a, b);
    i, k :| 0 <= i < SYMBOLS && 0 <= k < SYMBOLS && Nested(s, i, k);
    AllLive(f, i);
    WordIsPath(f, i);
    WordIsPath(f, k);
    assert Lens(f)[i] > 0;
  }

  /** The words can be decoded exactly when a symbol is unused, or one has no word. */
  lemma DecodableIff(f: seq<nat>)
    requires ValidFrequencies(f)
    ensures Decodable(Vals(f), Lens(f)) <==> Live(f) <= 256 || Wordless(f)
  {
    forall i | 0 <= i < SYMBOLS
      ensures Lens(f)[i] <= 3 * VLC_BITS && Vals(f)[i] < Pow2(Lens(f)[i]) && (Lens(f)[i] > 0 ==> f[i] > 0)
    {
      LensFit(f, i);
      if Lens(f)[i] > 0 {
        UnusedHasNoWord(f, i);
      }
    }
    if Live(f) <= 256 {
      TablesAre(f);
      PrefixFreeBelowFull(f, Vals(f), Lens(f));
    } else if Wordless(f) {
      WordlessIsPrefixFree(f);
    } else {
      var i, k := SomeClash(f);
    }
  }

  // ------------------------------------------------------------------ messages

  /** Every message over the used symbols, whatever follows it, is decoded with the words there are. */
  ghost predicate AllSurvive(f: seq<nat>)
    requires ValidFrequencies(f)
  {
    forall message: seq<nat>, rest: Word :: Survives(f, message, rest)
  }

  predicate Survives(f: seq<nat>, message: seq<nat>, rest: Word)
    requires ValidFrequencies(f)
  {
    (forall i :: 0 <= i < |message| ==> message[i] < SYMBOLS && f[message[i]] > 0) ==>
      var code := Words(Vals(f), Lens(f));
      Decode(Lens(f), code, Encode(code, message) + rest, |message|) == Decoded(message, rest)
  }

  lemma HasWord(f: seq<nat>, i: nat)
    requires ValidFrequencies(f) && 2 <= Live(f) <= 256 && i < SYMBOLS && f[i] > 0
    ensures Lens(f)[i] > 0
  {
    var s := Build(f);
    BuildInv(f);
    RootsCount(f);
    assert s.weight[..SYMBOLS][i] == f[i];
    var j := SomeOther(f, i);
    assert s.weight[..SYMBOLS][j] == f[j];
    RootIsLive(f, s, i);
    RootIsLive(f, s, j);
    OneRoot(s.freq, Root(s, i), Root(s, j));
    if s.up[i] == -1 {
      assert IsPrefix(Path(s, i), Path(s, j));
      LeavesEndPaths(f, s, i, j);
    }
  }

  lemma SomeOther(f: seq<nat>, i: nat) returns (j: nat)
    requires Live(f) >= 2 && i < |f|
    ensures j < |f| && j != i && f[j] > 0
  {
    var a, b := Picks(f);
    j := if a == i then b else a;
  }

  lemma SurvivesTwoOrMore(f: seq<nat>, message: seq<nat>, rest: Word)
    requires ValidFrequencies(f) && 2 <= Live(f) <= 256
    ensures Survives(f, message, rest)
  {
    if forall i :: 0 <= i < |message| ==> message[i] < SYMBOLS && f[message[i]] > 0 {
      forall i | 0 <= i < |message|
        ensures Lens(f)[message[i]] > 0
      {
        HasWord(f, message[i]);
      }
      DecodableIff(f);
      RoundTrip(Lens(f), Words(Vals(f), Lens(f)), message, rest);
    }
  }

  lemma EncodeOne(code: seq<Word>, i: nat)
    requires i < |code|
    ensures Encode(code, [i]) == code[i]
  {
    assert [i][1..] == [] && code[i] + [] == code[i];
  }

  /** A symbol without a word is never found. */
  lemma WordlessDoesNotSurvive(f: seq<nat>)
    requires ValidFrequencies(f) && Wordless(f)
    ensures !AllSurvive(f)
  {
    var w: nat :| w < SYMBOLS && f[w] > 0 && Lens(f)[w] == 0;
    var code := Words(Vals(f), Lens(f));
    WordIsPath(f, w);
    EncodeOne(code, w);
    hide Build, Lens, Vals, Words, Path, Encode;
    assert !Survives(f, [w], []);
  }

  lemma DecodedAs(f: seq<nat>, i: nat, rest: Word)
    requires ValidFrequencies(f) && i < SYMBOLS && f[i] > 0 && Survives(f, [i], rest)
    ensures Decode(Lens(f), Words(Vals(f), Lens(f)), Words(Vals(f), Lens(f))[i] + rest, 1) == Decoded([i], rest)
  {
    EncodeOne(Words(Vals(f), Lens(f)), i);
    hide Lens, Vals, Words, Encode, Decode;
  }

  /** One stream cannot stand for two messages of one symbol. */
  lemma OneStreamOneSymbol(f: seq<nat>, i: nat, k: nat, rest: Word)
    requires ValidFrequencies(f) && i < SYMBOLS && k < SYMBOLS && f[i] > 0 && f[k] > 0 && i != k
    requires Words(Vals(f), Lens(f))[i] + rest == Words(Vals(f), Lens(f))[k]
    ensures !Survives(f, [i], rest) || !Survives(f, [k], [])
  {
    hide Lens, Vals, Words, Decode, Survives;
    var code := Words(Vals(f), Lens(f));
    assert code[k] + [] == code[k];
    if Survives(f, [i], rest) && Survives(f, [k], []) {
      DecodedAs(f, i, rest);
      DecodedAs(f, k, []);
    }
  }

  lemma ClashRest(bits: seq<nat>, len: seq<nat>, i: nat, k: nat) returns (rest: Word)
    requires Clash(bits, len, i, k)
    ensures i != k && i < |len| && k < |len| && |bits| == |len|
    ensures Words(bits, len)[i] + rest == Words(bits, len)[k]
  {
    rest := Words(bits, len)[k][|Words(bits, len)[i]|..];
  }

  lemma FullTable(f: seq<nat>)
    requires ValidFrequencies(f)
    ensures |f| == SYMBOLS
  {
  }

  lemma ClashingWords(f: seq<nat>) returns (i: nat, k: nat, rest: Word)
    requires ValidFrequencies(f) && Live(f) == SYMBOLS && !Wordless(f)
    ensures i < SYMBOLS && k < SYMBOLS && f[i] > 0 && f[k] > 0 && i != k
    ensures Words(Vals(f), Lens(f))[i] + rest == Words(Vals(f), Lens(f))[k]
  {
    hide Live, Lens, Vals, Words, Wordless, Clash, ValidFrequencies;
    i, k := SomeClash(f);
    rest := ClashRest(Vals(f), Lens(f), i, k);
    assert |f| == SYMBOLS by { FullTable(f); }
    AllLive(f, i);
    AllLive(f, k);
  }

  lemma ClashDoesNotSurvive(f: seq<nat>)
    requires ValidFrequencies(f) && Live(f) == SYMBOLS && !Wordless(f)
    ensures !AllSurvive(f)
  {
    hide Survives, Words, Lens, Vals;
    var i, k, rest := ClashingWords(f);
    OneStreamOneSymbol(f, i, k, rest);
  }

  lemma LoneIsWordless(f: seq<nat>)
    requires ValidFrequencies(f) && Live(f) < 2
    ensures Wordless(f)
  {
    assert Build(f) == Plant(f);
    assert Lens(f)[256] == 0;
  }

  /** Messages survive exactly when two to 256 symbols are used. */
  lemma MessagesSurviveIff(f: seq<nat>)
    requires ValidFrequencies(f)
    ensures AllSurvive(f) <==> 2 <= Live(f) <= 256
  {
    if Live(f) < 2 {
      LoneIsWordless(f);
      WordlessDoesNotSurvive(f);
    } else if Live(f) <= 256 {
      forall message: seq<nat>, rest: Word
        ensures Survives(f, message, rest)
      {
        SurvivesTwoOrMore(f, message, rest);
      }
    } else if Wordless(f) {
      WordlessDoesNotSurvive(f);
    } else {
      ClashDoesNotSurvive(f);
    }
  }
}
