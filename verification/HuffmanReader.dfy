/** Reading a table from a buffer and building its codes: the whole of the table reader. */
module HuffmanReader {
  import opened Bytes
  import opened PrefixCodes
  import opened HuffmanTree
  import opened HuffmanCode
  import opened HuffmanAcceptance
  import opened HuffmanFullAlphabet

  /** The frequencies and the read position behind them. */
  datatype Read = Truncated | Read(freq: seq<nat>, ptr: nat)

  function RangeLength(start: nat, end: nat): nat {
    if start <= end then end - start + 1 else 0
  }

  /** The table with entries start..end replaced by the next bytes of the buffer. */
  function Fill(freq: seq<nat>, start: nat, bytes: seq<byte>): (r: seq<nat>)
    requires start + |bytes| <= |freq|
    ensures |r| == |freq|
    ensures forall i :: 0 <= i < |r| ==>
      r[i] == if start <= i < start + |bytes| then bytes[i - start] else freq[i]
  {
    freq[..start] + bytes + freq[start + |bytes|..]
  }

  /** Ranges follow one another until one starts at 0; the bytes announced must be there. */
  function ReadRanges(buf: seq<byte>, start: byte, end: byte, ptr: nat, freq: seq<nat>): (r: Read)
    requires |freq| == SYMBOLS
    requires forall i :: 0 <= i < 256 ==> freq[i] <= 255
    ensures r.Read? ==> |r.freq| == SYMBOLS && ptr < r.ptr <= |buf| && forall i :: 0 <= i < 256 ==> r.freq[i] <= 255
    decreases |buf| - ptr
  {
    var n := RangeLength(start, end);
    if |buf| < ptr + n + 1 then Truncated
    else
      var filled := Fill(freq, start, buf[ptr..ptr + n]);
      if buf[ptr + n] == 0 then Read(filled, ptr + n + 1)
      else if |buf| < ptr + n + 2 then Truncated
      else ReadRanges(buf, buf[ptr + n], buf[ptr + n + 1], ptr + n + 2, filled)
  }

  function Align4(ptr: nat): (r: nat)
    ensures r % 4 == 0 && ptr <= r < ptr + 4
  {
    (ptr + 3) / 4 * 4
  }

  /** The whole header: ranges, the end marker's weight of 1, and padding to four bytes. */
  function ReadTable(buf: seq<byte>): (r: Read)
    ensures r.Read? ==> ValidFrequencies(r.freq) && r.ptr % 4 == 0 && r.ptr <= |buf|
  {
    if |buf| < 2 then Truncated
    else
      match ReadRanges(buf, buf[0], buf[1], 2, seq(SYMBOLS, _ => 0))
      case Truncated => Truncated
      case Read(freq, ptr) => if Align4(ptr) > |buf| then Truncated else Read(freq[256 := 1], Align4(ptr))
  }

  /** A range of a table as it is sent. */
  datatype Range = Range(start: byte, end: byte, bytes: seq<byte>)

  /** Ranges that can be sent: as many bytes as announced, and only the first may start at 0. */
  predicate Sendable(rs: seq<Range>) {
    forall i :: 0 <= i < |rs| ==>
      && (rs[i].start <= rs[i].end ==> |rs[i].bytes| == rs[i].end - rs[i].start + 1)
      && (rs[i].start > rs[i].end ==> rs[i].bytes == [])
      && (i > 0 ==> rs[i].start > 0)
  }

  function Announced(rs: seq<Range>): (r: seq<byte>)
    ensures |r| > 0
  {
    if |rs| == 0 then [0] else [rs[0].start, rs[0].end] + rs[0].bytes + Announced(rs[1..])
  }

  function FillAll(freq: seq<nat>, rs: seq<Range>): (r: seq<nat>)
    requires |freq| == SYMBOLS && Sendable(rs)
    ensures |r| == SYMBOLS
    decreases |rs|
  {
    if |rs| == 0 then freq else FillAll(Fill(freq, rs[0].start, rs[0].bytes), rs[1..])
  }

  /** The table the ranges describe: an entry is the byte sent for it in the last range it lies in; entries
      in no range keep what they were. */
  lemma {:induction false} EntryOf(freq: seq<nat>, rs: seq<Range>, entry: nat, k: nat)
    requires |freq| == SYMBOLS && Sendable(rs) && entry < SYMBOLS && k <= |rs|
    requires forall i :: k < i < |rs| ==> !(rs[i].start <= entry <= rs[i].end)
    requires k < |rs| ==> rs[k].start <= entry <= rs[k].end
    ensures k < |rs| ==> FillAll(freq, rs)[entry] == rs[k].bytes[entry - rs[k].start]
    ensures k == |rs| && (forall i :: 0 <= i < |rs| ==> !(rs[i].start <= entry <= rs[i].end)) ==>
              FillAll(freq, rs)[entry] == freq[entry]
    decreases |rs|
  {
    if |rs| > 0 {
      var filled := Fill(freq, rs[0].start, rs[0].bytes);
      hide Fill;
      if k == 0 {
        EntryOf(filled, rs[1..], entry, |rs| - 1);
      } else {
        EntryOf(filled, rs[1..], entry, k - 1);
      }
    }
  }

  predicate At(buf: seq<byte>, at: nat, part: seq<byte>) {
    at + |part| <= |buf| && buf[at..at + |part|] == part
  }

  /** The first range, and the others behind it. */
  lemma FirstRangeAt(buf: seq<byte>, at: nat, rs: seq<Range>)
    requires |rs| > 0 && At(buf, at, Announced(rs))
    ensures at + 2 + |rs[0].bytes| < |buf| && buf[at] == rs[0].start && buf[at + 1] == rs[0].end
    ensures buf[at + 2..at + 2 + |rs[0].bytes|] == rs[0].bytes
    ensures At(buf, at + 2 + |rs[0].bytes|, Announced(rs[1..]))
  {
    var head, bytes, tail := [rs[0].start, rs[0].end], rs[0].bytes, Announced(rs[1..]);
    assert |tail| > 0;
    assert Announced(rs) == (head + bytes) + tail;
    hide Announced;
    PartOf(buf, at, head + bytes, tail);
    PartOf(buf, at, head, bytes);
    assert buf[at] == buf[at..at + 2][0] && buf[at + 1] == buf[at..at + 2][1];
  }

  lemma EndAt(buf: seq<byte>, at: nat)
    requires At(buf, at, Announced([]))
    ensures buf[at] == 0
  {
    assert buf[at] == buf[at..at + 1][0];
  }

  /** After a range comes the end, or the next range. */
  lemma ReadOne(buf: seq<byte>, start: byte, end: byte, ptr: nat, freq: seq<nat>, bytes: seq<byte>)
    requires |freq| == SYMBOLS && forall i :: 0 <= i < 256 ==> freq[i] <= 255
    requires |bytes| == RangeLength(start, end) && ptr + |bytes| < |buf| && buf[ptr..ptr + |bytes|] == bytes
    ensures var next, filled := ptr + |bytes|, Fill(freq, start, bytes);
            && (forall i :: 0 <= i < 256 ==> filled[i] <= 255)
            && (buf[next] == 0 ==> ReadRanges(buf, start, end, ptr, freq) == Read(filled, next + 1))
            && (buf[next] != 0 && next + 1 < |buf| ==>
                  ReadRanges(buf, start, end, ptr, freq) == ReadRanges(buf, buf[next], buf[next + 1], next + 2, filled))
  {
  }

  /** Ranges, however many, are read back as they were sent. */
  lemma {:induction false} RangesReadBack(buf: seq<byte>, at: nat, rs: seq<Range>, freq: seq<nat>)
    requires |rs| > 0 && Sendable(rs) && At(buf, at, Announced(rs))
    requires |freq| == SYMBOLS && forall i :: 0 <= i < 256 ==> freq[i] <= 255
    ensures ReadRanges(buf, rs[0].start, rs[0].end, at + 2, freq) == Read(FillAll(freq, rs), at + |Announced(rs)|)
    decreases |rs|
  {
    hide ReadRanges, At, Fill;
    FirstRangeAt(buf, at, rs);
    ReadOne(buf, rs[0].start, rs[0].end, at + 2, freq, rs[0].bytes);
    var next, filled := at + 2 + |rs[0].bytes|, Fill(freq, rs[0].start, rs[0].bytes);
    var rest := rs[1..];
    assert FillAll(freq, rs) == FillAll(filled, rest) && at + |Announced(rs)| == next + |Announced(rest)|;
    if rest == [] {
      EndAt(buf, next);
    } else {
      hide Announced, FillAll;
      FirstRangeAt(buf, next, rest);
      RangesReadBack(buf, next, rest, filled);
    }
  }

  /** A whole header: the ranges over a table of zeros, the end marker's weight, and padding skipped. */
  lemma TableReadsBack(rs: seq<Range>, rest: seq<byte>)
    requires |rs| > 0 && Sendable(rs)
    ensures var n := |Announced(rs)|;
            ReadTable(Announced(rs) + rest) ==
              if Align4(n) > n + |rest| then Truncated
              else Read(FillAll(seq(SYMBOLS, _ => 0), rs)[256 := 1], Align4(n))
  {
    hide Announced, FillAll, ReadRanges, Fill, Sendable;
    var buf := Announced(rs) + rest;
    assert At(buf, 0, Announced(rs));
    FirstRangeAt(buf, 0, rs);
    RangesReadBack(buf, 0, rs, seq(SYMBOLS, _ => 0));
    hide At;
  }

  /** Fills one announced range in place. */
  method FillRange(buf: seq<byte>, start: byte, end: byte, ptr0: nat, frequency: array<int>, ghost freq: seq<nat>)
    returns (ptr: nat)
    requires frequency.Length == NODES && |freq| == SYMBOLS
    requires forall i :: 0 <= i < NODES ==> frequency[i] == if i < SYMBOLS then freq[i] else 0
    requires ptr0 + RangeLength(start, end) <= |buf|
    modifies frequency
    ensures ptr == ptr0 + RangeLength(start, end)
    ensures var filled := Fill(freq, start, buf[ptr0..ptr]);
            forall i :: 0 <= i < NODES ==> frequency[i] == if i < SYMBOLS then filled[i] else 0
  {
    ptr := ptr0;
    var i: nat := start;
    while i <= end
      invariant start <= i && (i <= end + 1 || i == start)
      invariant ptr == ptr0 + (i - start)
      invariant forall k :: 0 <= k < NODES ==>
        frequency[k] == if start <= k < i then buf[ptr0 + k - start] else if k < SYMBOLS then freq[k] else 0
    {
      frequency[i] := buf[ptr];
      ptr := ptr + 1;
      i := i + 1;
    }
  }

  /** The array holds these frequencies and nothing behind them. */
  ghost predicate Filled(frequency: array<int>, freq: seq<nat>)
    reads frequency
  {
    && frequency.Length == NODES && |freq| == SYMBOLS
    && (forall i :: 0 <= i < NODES ==> frequency[i] == if i < SYMBOLS then freq[i] else 0)
  }

  /** Reads the ranges into an array of zeros. */
  method ReadFrequencies(buf: seq<byte>, frequency: array<int>) returns (ok: bool, ptr: nat)
    requires |buf| >= 2 && Filled(frequency, seq(SYMBOLS, _ => 0))
    modifies frequency
    ensures ok <==> ReadRanges(buf, buf[0], buf[1], 2, seq(SYMBOLS, _ => 0)).Read?
    ensures ok ==> var r := ReadRanges(buf, buf[0], buf[1], 2, seq(SYMBOLS, _ => 0));
                   ptr == r.ptr && Filled(frequency, r.freq)
  {
    ghost var freq: seq<nat> := seq(SYMBOLS, _ => 0);
    ghost var all := ReadRanges(buf, buf[0], buf[1], 2, freq);
    var start, end := buf[0], buf[1];
    ptr := 2;
    while true
      invariant 2 <= ptr <= |buf| && Filled(frequency, freq)
      invariant forall i :: 0 <= i < 256 ==> freq[i] <= 255
      invariant ReadRanges(buf, start, end, ptr, freq) == all
      decreases |buf| - ptr
    {
      if |buf| - ptr < RangeLength(start, end) + 1 {
        return false, ptr;
      }
      ghost var filled := Fill(freq, start, buf[ptr..ptr + RangeLength(start, end)]);
      ptr := FillRange(buf, start, end, ptr, frequency, freq);
      freq := filled;
      start := buf[ptr];
      ptr := ptr + 1;
      if start == 0 {
        return true, ptr;
      }
      if ptr == |buf| {
        return false, ptr;
      }
      end := buf[ptr];
      ptr := ptr + 1;
    }
  }

  method SkipPadding(start: nat) returns (ptr: nat)
    ensures ptr == Align4(start)
  {
    ptr := start;
    while ptr % 4 != 0
      invariant start <= ptr <= Align4(start)
      decreases Align4(start) - ptr
    {
      ptr := ptr + 1;
    }
  }

  /** What the caller gets: the code tables and where the coefficient data begins. */
  datatype Built = Invalid | Built(bitsTab: seq<nat>, lenTab: seq<nat>, ptr: nat)

  /** A header is taken when its table can be read and the constructor accepts the codes. */
  predicate Accepts(buf: seq<byte>, init: Constructor) {
    match ReadTable(buf)
    case Truncated => false
    case Read(freq, _) => init(Vals(freq), Lens(freq))
  }

  /** Builds the code tables of a frame from its header. */
  method ReadHuffmanTables(buf: seq<byte>, initVlc: Constructor) returns (r: Built)
    ensures r.Built? <==> Accepts(buf, initVlc)
    ensures r.Built? ==> r == Built(Vals(ReadTable(buf).freq), Lens(ReadTable(buf).freq), ReadTable(buf).ptr)
  {
    if |buf| < 2 {
      return Invalid;
    }
    var frequency := new int[NODES](_ => 0);
    var ok, ptr := ReadFrequencies(buf, frequency);
    if !ok {
      return Invalid;
    }
    frequency[256] := 1;
    ptr := SkipPadding(ptr);
    if ptr > |buf| {
      return Invalid;
    }
    ghost var freq := ReadTable(buf).freq;
    var bitsTab, lenTab := BuildTables(frequency, freq);
    TablesAre(freq);
    if !initVlc(bitsTab, lenTab) {
      return Invalid;
    }
    return Built(bitsTab, lenTab, ptr);
  }

  method BuildTables(frequency: array<int>, ghost f: seq<nat>) returns (bitsTab: seq<nat>, lenTab: seq<nat>)
    requires Filled(frequency, f) && ValidFrequencies(f)
    modifies frequency
    ensures Tables(f, bitsTab, lenTab)
  {
    var flag := new int[NODES];
    var up := new int[NODES](_ => -1);
    assert frequency[..SYMBOLS] == f;
    MergeLoop(frequency, flag, up, f);
    var bits, len := ExtractCodes(flag, up, frequency, f);
    bitsTab, lenTab := bits[..], len[..];
  }

  // ------------------------------------------------------------------ which headers are taken

  lemma ClashIsNotDecodable(bits: seq<nat>, len: seq<nat>)
    requires NoticedClash(bits, len)
    ensures !Decodable(bits, len)
  {
  }

  /** The constructor that accepts no more than it must. */
  lemma Strictest() returns (init: Constructor)
    ensures Meets(init) && forall bits, len :: init(bits, len) <==> Decodable(bits, len)
  {
    init := (bits: seq<nat>, len: seq<nat>) => Decodable(bits, len);
    forall bits, len | NoticedClash(bits, len)
      ensures !init(bits, len)
    {
      ClashIsNotDecodable(bits, len);
    }
  }

  /** A header is taken by every constructor that keeps its contract exactly when its table can be read
      and a symbol is unused, or one has no word. */
  lemma TakenIff(buf: seq<byte>)
    ensures (forall init: Constructor :: Meets(init) ==> Accepts(buf, init)) <==>
            ReadTable(buf).Read? && (Live(ReadTable(buf).freq) <= 256 || Wordless(ReadTable(buf).freq))
  {
    hide Decodable, NoticedClash, ReadTable, Live, Wordless, Lens, Vals;
    var strictest := Strictest();
    if ReadTable(buf).Read? {
      DecodableIff(ReadTable(buf).freq);
    }
  }

  /** The constructor that refuses no more than it must. */
  lemma Laxest() returns (init: Constructor)
    ensures Meets(init) && forall bits, len :: init(bits, len) <==> !NoticedClash(bits, len)
  {
    init := (bits: seq<nat>, len: seq<nat>) => !NoticedClash(bits, len);
    forall bits, len | Decodable(bits, len)
      ensures init(bits, len)
    {
      if NoticedClash(bits, len) {
        ClashIsNotDecodable(bits, len);
      }
    }
  }

  /** It is refused by every such constructor exactly when its table cannot be read, or a word of it
      clashes with a longer one in the first lookup or in the same. */
  lemma RefusedIff(buf: seq<byte>)
    ensures (forall init: Constructor :: Meets(init) ==> !Accepts(buf, init)) <==>
            ReadTable(buf).Truncated? || NoticedClash(Vals(ReadTable(buf).freq), Lens(ReadTable(buf).freq))
  {
    hide Decodable, NoticedClash, ReadTable, Lens, Vals;
    var laxest := Laxest();
  }

  /** A table sent as one range over all byte values. */
  lemma WholeTable(table: seq<byte>, rest: seq<byte>)
    requires |table| == 256 && |rest| >= 1
    ensures ReadTable([0, 255] + table + [0] + rest) == Read(table + [1], 260)
  {
    var rs := [Range(0, 255, table)];
    assert rs[1..] == [] && Announced(rs) == [0, 255] + table + [0];
    TableReadsBack(rs, rest);
    assert FillAll(seq(SYMBOLS, _ => 0), rs) == Fill(seq(SYMBOLS, _ => 0), 0, table);
    assert Fill(seq(SYMBOLS, _ => 0), 0, table)[256 := 1] == table + [1];
  }

  /** A header with all frequencies one is well formed, and refused for its codes. */
  lemma FlatHeaderIsRefused(rest: seq<byte>, init: Constructor)
    requires |rest| >= 1 && Meets(init)
    ensures var buf := [0, 255] + seq<byte>(256, _ => 1) + [0] + rest;
            && ReadTable(buf) == Read(Flat(), 260) && Live(Flat()) == SYMBOLS
            && !PrefixFree(Flat(), Words(Vals(Flat()), Lens(Flat())))
            && !Accepts(buf, init)
  {
    var table := seq<byte>(256, _ => 1);
    WholeTable(table, rest);
    assert table + [1] == Flat();
    FlatClashes();
  }

  /** One with the first frequency 255 is taken, though all symbols are in use: the first has no word. */
  lemma TopHeavyHeaderIsTaken(rest: seq<byte>, init: Constructor)
    requires |rest| >= 1 && Meets(init)
    ensures var buf := [0, 255] + ([255] + seq<byte>(255, _ => 1)) + [0] + rest;
            && ReadTable(buf) == Read(TopHeavy(), 260) && Live(TopHeavy()) == SYMBOLS && Lens(TopHeavy())[0] == 0
            && Accepts(buf, init)
  {
    var table := [255] + seq<byte>(255, _ => 1);
    WholeTable(table, rest);
    assert table + [1] == TopHeavy();
    TopHeavyIsWordless();
  }
}
