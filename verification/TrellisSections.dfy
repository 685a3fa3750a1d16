/** Sections: runs of bands with one codebook, how they are written, parsed back, and priced. */
module TrellisSections {
  import opened BitStrings
  import opened Sums
  import opened Trellis

  datatype Section = Section(cb: nat, run: nat)

  /** The maximal runs of an assignment, in band order. */
  function RunLengths(asg: seq<nat>): (secs: seq<Section>)
    ensures |secs| <= |asg|
    ensures asg != [] ==> secs != [] && secs[|secs| - 1] == Section(asg[|asg| - 1], LastRun(asg))
  {
    var n := |asg|;
    if n == 0 then [] else RunLengths(asg[..n - LastRun(asg)]) + [Section(asg[n - 1], LastRun(asg))]
  }

  function Repeat<T>(x: T, n: nat): (r: seq<T>)
    ensures |r| == n && forall i :: 0 <= i < n ==> r[i] == x
  {
    seq(n, _ => x)
  }

  function Expand(secs: seq<Section>): seq<nat> {
    if |secs| == 0 then [] else Expand(secs[..|secs| - 1]) + Repeat(secs[|secs| - 1].cb, secs[|secs| - 1].run)
  }

  lemma {:induction false} LastRunAlike(asg: seq<nat>, k: nat)
    requires asg != [] && k < |asg|
    ensures k >= |asg| - LastRun(asg) ==> asg[k] == asg[|asg| - 1]
    ensures k == |asg| - LastRun(asg) - 1 ==> asg[k] != asg[|asg| - 1]
    decreases |asg|
  {
    var n := |asg|;
    if LastRun(asg) > 1 && k < n - 1 {
      assert asg[..n - 1][k] == asg[k] && asg[..n - 1][n - 2] == asg[n - 2];
      LastRunAlike(asg[..n - 1], k);
    }
  }

  lemma TailOfOne(asg: seq<nat>, x: nat, r: nat)
    requires r <= |asg| && forall k :: |asg| - r <= k < |asg| ==> asg[k] == x
    ensures asg == asg[..|asg| - r] + Repeat(x, r)
  {
  }

  lemma LastRunIsRun(asg: seq<nat>)
    requires asg != []
    ensures asg == asg[..|asg| - LastRun(asg)] + Repeat(asg[|asg| - 1], LastRun(asg))
    ensures LastRun(asg) < |asg| ==> asg[|asg| - LastRun(asg) - 1] != asg[|asg| - 1]
  {
    hide LastRun, Repeat;
    var r := LastRun(asg);
    forall k | |asg| - r <= k < |asg|
      ensures asg[k] == asg[|asg| - 1]
    {
      LastRunAlike(asg, k);
    }
    TailOfOne(asg, asg[|asg| - 1], r);
    if r < |asg| {
      LastRunAlike(asg, |asg| - r - 1);
    }
  }

  /** No two neighbours use the same codebook. */
  predicate NeighboursDiffer(secs: seq<Section>) {
    forall i :: 0 < i < |secs| ==> secs[i - 1].cb != secs[i].cb
  }

  lemma AppendRun(init: seq<Section>, s: Section)
    requires NeighboursDiffer(init) && (init != [] ==> init[|init| - 1].cb != s.cb)
    ensures NeighboursDiffer(init + [s])
    ensures Expand(init + [s]) == Expand(init) + Repeat(s.cb, s.run)
  {
  }

  /** The runs spell the assignment, none is empty, and neighbours use different codebooks. */
  lemma {:induction false} RunLengthsProper(asg: seq<nat>)
    ensures Expand(RunLengths(asg)) == asg
    ensures forall s :: s in RunLengths(asg) ==> 0 < s.run <= |asg|
    ensures NeighboursDiffer(RunLengths(asg))
    decreases |asg|
  {
    if |asg| > 0 {
      var r := LastRun(asg);
      var part := asg[..|asg| - r];
      RunLengthsProper(part);
      LastRunIsRun(asg);
      hide LastRun, Expand, NeighboursDiffer;
      AppendRun(RunLengths(part), Section(asg[|asg| - 1], r));
    }
  }

  // ------------------------------------------------------------------ the backtrace's jump

  /** The row where the run of a cell begins, and the cell that run was entered from. */
  datatype Landing = Landing(start: nat, prev: nat)

  predicate Lands(w: Window, bands: seq<Band>, n: nat, cb: nat, run: nat, asg: seq<nat>, l: Landing)
    requires Fits(w, bands) && n <= |bands|
  {
    && l.start + run == n && l.start < n == |asg|
    && l.prev < CODEBOOKS && cb < CODEBOOKS && l.prev == CellAt(w, bands, l.start + 1, cb).prev
    && CellAt(w, bands, l.start + 1, cb).run == 1
    && asg[..l.start] == Trace(w, bands, l.start, l.prev)
    && forall k :: l.start <= k < n ==> asg[k] == cb && Allowed(bands[k], cb)
  }

  lemma LandsFurther(w: Window, bands: seq<Band>, n: nat, cb: nat, run: nat, asg: seq<nat>, l: Landing)
    requires Fits(w, bands) && n < |bands| && Lands(w, bands, n, cb, run, asg, l) && Allowed(bands[n], cb)
    ensures Lands(w, bands, n + 1, cb, run + 1, asg + [cb], l)
  {
    hide CellAt, Trace, Allowed;
    assert (asg + [cb])[..l.start] == asg[..l.start];
  }

  lemma LandsAtStart(w: Window, bands: seq<Band>, cb: nat)
    requires Fits(w, bands) && 0 < |bands| && Allowed(bands[0], cb)
    ensures Lands(w, bands, 1, cb, CellAt(w, bands, 1, cb).run, Trace(w, bands, 1, cb), Landing(0, cb))
  {
    FirstCellShape(w, bands, cb);
    hide RowAt;
  }

  lemma LandsHere(w: Window, bands: seq<Band>, n: nat, cb: nat, prev: nat)
    requires Fits(w, bands) && 1 < n <= |bands| && Allowed(bands[n - 1], cb) && prev < CODEBOOKS
    requires CellAt(w, bands, n, cb).prev == prev && CellAt(w, bands, n, cb).run == 1
    ensures Lands(w, bands, n, cb, 1, Trace(w, bands, n - 1, prev) + [cb], Landing(n - 1, prev))
  {
  }

  lemma ClosedCell(w: Window, bands: seq<Band>, n: nat, cb: nat)
    requires Fits(w, bands) && 0 < n <= |bands| && cb < CODEBOOKS
    ensures CellAt(w, bands, n, cb).run == 0 <==> !Allowed(bands[n - 1], cb)
    ensures CellAt(w, bands, n, cb).run <= n
  {
    assert RowAt(w, bands, n).cells[cb] == NextCellOf(w, RowAt(w, bands, n - 1), bands[n - 1], cb);
  }

  /** Jumping back over a whole run lands on the cell the run was entered from: the cell one above
      the landing row names it. */
  lemma {:induction false} Jump(w: Window, bands: seq<Band>, n: nat, cb: nat) returns (l: Landing)
    requires Fits(w, bands) && 0 < n <= |bands| && Allowed(bands[n - 1], cb)
    ensures Lands(w, bands, n, cb, CellAt(w, bands, n, cb).run, Trace(w, bands, n, cb), l)
    decreases n
  {
    hide RowAt, Trace, Lands;
    if n == 1 {
      LandsAtStart(w, bands, cb);
      l := Landing(0, cb);
    } else {
      var from := CellFrom(w, bands, n, cb);
      TraceStep(w, bands, n, cb, from);
      ClosedCell(w, bands, n - 1, cb);
      if from == cb && Allowed(bands[n - 2], cb) {
        l := Jump(w, bands, n - 1, cb);
        LandsFurther(w, bands, n - 1, cb, CellAt(w, bands, n - 1, cb).run, Trace(w, bands, n - 1, cb), l);
      } else {
        LandsHere(w, bands, n, cb, from);
        l := Landing(n - 1, from);
      }
    }
  }

  /** What lies before the landing decides whether the whole is admissible. */
  lemma LandingAdmissible(w: Window, bands: seq<Band>, n: nat, cb: nat, run: nat, asg: seq<nat>, l: Landing)
    requires Fits(w, bands) && n <= |bands| && Lands(w, bands, n, cb, run, asg, l)
    ensures Admissible(bands, asg) <==> Admissible(bands, asg[..l.start])
  {
    if Admissible(bands, asg[..l.start]) {
      forall i | 0 <= i < n
        ensures Allowed(bands[i], asg[i])
      {
        if i < l.start {
          assert asg[..l.start][i] == asg[i];
        }
      }
    } else {
      var i :| 0 <= i < l.start && !Allowed(bands[i], asg[..l.start][i]);
      assert asg[i] == asg[..l.start][i];
    }
  }

  // ------------------------------------------------------------------ writing and parsing

  /** A run length: full fields while the rest reaches the escape value, then the remainder. */
  function RunField(w: Window, run: nat): Word
    decreases run
  {
    if run >= RunEsc(w) then Bits(RunEsc(w), RunBits(w)) + RunField(w, run - RunEsc(w)) else Bits(run, RunBits(w))
  }

  function Write(w: Window, secs: seq<Section>): Word
    requires forall s :: s in secs ==> s.cb < CODEBOOKS
  {
    if |secs| == 0 then []
    else
      var s := secs[|secs| - 1];
      Write(w, secs[..|secs| - 1]) + (Bits(OutMap(s.cb), 4) + RunField(w, s.run))
  }

  /** What a parser leaves: a value and the unread bits, or a failure. */
  datatype Parsed<T> = Bad | Parsed(value: T, rest: Word)

  function GetBits(stream: Word, n: nat): Parsed<nat> {
    if |stream| < n then Bad else Parsed(Value(stream[..n]), stream[n..])
  }

  /** The decoder's inner loop: adds fields up until one is not the escape value, and rejects a
      section that reaches past the last band. */
  function ParseEnd(w: Window, maxSfb: nat, sectEnd: nat, stream: Word): (r: Parsed<nat>)
    ensures r.Parsed? ==> |r.rest| < |stream| && sectEnd <= r.value <= maxSfb
    decreases |stream|
  {
    match GetBits(stream, RunBits(w))
    case Bad => Bad
    case Parsed(incr, rest) =>
      if sectEnd + incr > maxSfb then Bad
      else if incr == RunEsc(w) then ParseEnd(w, maxSfb, sectEnd + incr, rest)
      else Parsed(sectEnd + incr, rest)
  }

  /** The decoder's section parser for one window group: the codebooks of bands k and up. */
  function Parse(w: Window, maxSfb: nat, k: nat, stream: Word): Parsed<seq<nat>>
    decreases |stream|
  {
    if k >= maxSfb then Parsed([], stream)
    else
      match GetBits(stream, 4)
      case Bad => Bad
      case Parsed(band, rest) =>
        if band == 12 then Bad
        else
          match ParseEnd(w, maxSfb, k, rest)
          case Bad => Bad
          case Parsed(end, rest') =>
            match Parse(w, maxSfb, end, rest')
            case Bad => Bad
            case Parsed(bandTypes, rest'') => Parsed(Repeat(band, end - k) + bandTypes, rest'')
  }

  /** Whatever stream is parsed, every band gets a codebook, and none the invalid one. */
  lemma {:induction false} ParsedIsProper(w: Window, maxSfb: nat, k: nat, stream: Word)
    requires k <= maxSfb && Parse(w, maxSfb, k, stream).Parsed?
    ensures var types := Parse(w, maxSfb, k, stream).value;
            |types| == maxSfb - k && forall i :: 0 <= i < |types| ==> types[i] < 16 && types[i] != 12
    decreases |stream|
  {
    if k < maxSfb {
      var field := GetBits(stream, 4);
      var end := ParseEnd(w, maxSfb, k, field.rest);
      BitsOfValue(stream[..4]);
      assert Pow2(4) == 16 by { EscapeFits(w); }
      ParsedIsProper(w, maxSfb, end.value, end.rest);
    }
  }

  lemma FieldRoundTrip(v: nat, n: nat, rest: Word)
    requires v < Pow2(n)
    ensures GetBits(Bits(v, n) + rest, n) == Parsed(v, rest)
  {
  }

  lemma EscapeFits(w: Window)
    ensures RunEsc(w) < Pow2(RunBits(w)) && Pow2(4) == 16
  {
  }

  /** One more field is read and added up. */
  lemma ParseField(w: Window, maxSfb: nat, sectEnd: nat, v: nat, rest: Word)
    requires v <= RunEsc(w) && sectEnd + v <= maxSfb
    ensures ParseEnd(w, maxSfb, sectEnd, Bits(v, RunBits(w)) + rest)
         == if v == RunEsc(w) then ParseEnd(w, maxSfb, sectEnd + v, rest) else Parsed(sectEnd + v, rest)
  {
    EscapeFits(w);
    FieldRoundTrip(v, RunBits(w), rest);
    hide Bits, GetBits;
  }

  lemma {:induction false} RunRoundTrip(w: Window, maxSfb: nat, sectEnd: nat, run: nat, rest: Word)
    requires sectEnd + run <= maxSfb
    ensures ParseEnd(w, maxSfb, sectEnd, RunField(w, run) + rest) == Parsed(sectEnd + run, rest)
    decreases run
  {
    hide ParseEnd, Bits;
    if run >= RunEsc(w) {
      var more := RunField(w, run - RunEsc(w)) + rest;
      assert RunField(w, run) + rest == Bits(RunEsc(w), RunBits(w)) + more;
      ParseField(w, maxSfb, sectEnd, RunEsc(w), more);
      RunRoundTrip(w, maxSfb, sectEnd + RunEsc(w), run - RunEsc(w), rest);
    } else {
      ParseField(w, maxSfb, sectEnd, run, rest);
    }
  }

  function OutMapped(asg: seq<nat>): (r: seq<nat>)
    requires forall i :: 0 <= i < |asg| ==> asg[i] < CODEBOOKS
    ensures |r| == |asg|
  {
    seq(|asg|, i requires 0 <= i < |asg| => OutMap(asg[i]) as nat)
  }

  function Covered(secs: seq<Section>): nat {
    if |secs| == 0 then 0 else Covered(secs[..|secs| - 1]) + secs[|secs| - 1].run
  }

  lemma {:induction false} ExpandLength(secs: seq<Section>)
    ensures |Expand(secs)| == Covered(secs)
  {
    if |secs| > 0 {
      ExpandLength(secs[..|secs| - 1]);
    }
  }

  lemma {:induction false} ExpandInRange(secs: seq<Section>)
    requires forall s :: s in secs ==> s.cb < CODEBOOKS
    ensures forall i :: 0 <= i < |Expand(secs)| ==> Expand(secs)[i] < CODEBOOKS
  {
    if |secs| > 0 {
      ExpandInRange(secs[..|secs| - 1]);
    }
  }

  predicate Proper(secs: seq<Section>) {
    forall s :: s in secs ==> s.cb < CODEBOOKS && s.run > 0
  }

  /** One written section parses to its bands, then parsing goes on behind it. */
  lemma ParseSection(w: Window, s: Section, k: nat, more: seq<nat>, stream: Word, maxSfb: nat, rest: Word)
    requires s.cb < CODEBOOKS && s.run > 0 && k + s.run <= maxSfb
    requires Parse(w, maxSfb, k + s.run, stream) == Parsed(more, rest)
    ensures Parse(w, maxSfb, k, Bits(OutMap(s.cb), 4) + (RunField(w, s.run) + stream))
         == Parsed(Repeat(OutMap(s.cb) as nat, s.run) + more, rest)
  {
    EscapeFits(w);
    hide ParseEnd, RunField, Bits, GetBits, Pow2, Repeat, RunBits, RunEsc;
    FieldRoundTrip(OutMap(s.cb), 4, RunField(w, s.run) + stream);
    RunRoundTrip(w, maxSfb, k, s.run, stream);
    hide OutMap;
  }

  lemma ExpandSnoc(init: seq<Section>, s: Section, more: seq<nat>)
    requires Proper(init + [s])
    requires forall i :: 0 <= i < |Expand(init)| ==> Expand(init)[i] < CODEBOOKS
    requires forall i :: 0 <= i < |Expand(init + [s])| ==> Expand(init + [s])[i] < CODEBOOKS
    ensures OutMapped(Expand(init)) + (Repeat(OutMap(s.cb) as nat, s.run) + more)
            == OutMapped(Expand(init + [s])) + more
  {
  }

  lemma WriteSnoc(w: Window, init: seq<Section>, s: Section, stream: Word)
    requires Proper(init + [s])
    ensures Proper(init) && s.cb < CODEBOOKS && s.run > 0
    ensures Write(w, init + [s]) + stream == Write(w, init) + (Bits(OutMap(s.cb), 4) + (RunField(w, s.run) + stream))
    ensures Covered(init + [s]) == Covered(init) + s.run
  {
  }

  predicate ParsesTo(w: Window, maxSfb: nat, secs: seq<Section>, stream: Word, more: seq<nat>, rest: Word)
    requires Proper(secs)
  {
    && (forall i :: 0 <= i < |Expand(secs)| ==> Expand(secs)[i] < CODEBOOKS)
    && Parse(w, maxSfb, 0, Write(w, secs) + stream) == Parsed(OutMapped(Expand(secs)) + more, rest)
  }

  /** Parsing what was written so far yields its bands, then goes on with what follows. */
  lemma {:induction false} ParseWritten(w: Window, secs: seq<Section>, more: seq<nat>, stream: Word, maxSfb: nat,
                                        rest: Word)
    requires Proper(secs) && Covered(secs) <= maxSfb
    requires Parse(w, maxSfb, Covered(secs), stream) == Parsed(more, rest)
    ensures ParsesTo(w, maxSfb, secs, stream, more, rest)
    decreases |secs|
  {
    if |secs| == 0 {
      assert [] + stream == stream;
      assert OutMapped([]) + more == more;
    } else {
      var init, s := secs[..|secs| - 1], secs[|secs| - 1];
      assert secs == init + [s];
      WriteSnoc(w, init, s, stream);
      ParseSection(w, s, Covered(init), more, stream, maxSfb, rest);
      var own := Bits(OutMap(s.cb), 4) + (RunField(w, s.run) + stream);
      var more' := Repeat(OutMap(s.cb) as nat, s.run) + more;
      ParseWritten(w, init, more', own, maxSfb, rest);
      ParsesSnoc(w, maxSfb, init, s, stream, more, rest);
    }
  }

  lemma ParsesSnoc(w: Window, maxSfb: nat, init: seq<Section>, s: Section, stream: Word, more: seq<nat>, rest: Word)
    requires Proper(init + [s]) && Proper(init) && s.cb < CODEBOOKS
    requires ParsesTo(w, maxSfb, init, Bits(OutMap(s.cb), 4) + (RunField(w, s.run) + stream),
                      Repeat(OutMap(s.cb) as nat, s.run) + more, rest)
    ensures ParsesTo(w, maxSfb, init + [s], stream, more, rest)
  {
    WriteSnoc(w, init, s, stream);
    ExpandInRange(init + [s]);
    ExpandSnoc(init, s, more);
  }

  /** The decoder recovers exactly the codebooks of the assignment, whatever follows in the stream. */
  lemma SectionsRoundTrip(w: Window, asg: seq<nat>, rest: Word)
    requires forall i :: 0 <= i < |asg| ==> asg[i] < CODEBOOKS
    ensures Proper(RunLengths(asg))
    ensures Parse(w, |asg|, 0, Write(w, RunLengths(asg)) + rest) == Parsed(OutMapped(asg), rest)
  {
    var secs := RunLengths(asg);
    RunLengthsProper(asg);
    RunsInRange(asg);
    ExpandLength(secs);
    assert Parse(w, |asg|, |asg|, rest) == Parsed([], rest);
    ParseWritten(w, secs, [], rest, |asg|, rest);
    assert OutMapped(asg) + [] == OutMapped(asg);
  }

  lemma {:induction false} RunsInRange(asg: seq<nat>)
    requires forall i :: 0 <= i < |asg| ==> asg[i] < CODEBOOKS
    ensures forall s :: s in RunLengths(asg) ==> s.cb < CODEBOOKS
    decreases |asg|
  {
    if |asg| > 0 {
      RunsInRange(asg[..|asg| - LastRun(asg)]);
    }
  }

  // ------------------------------------------------------------------ codebook numbers

  /** How many codebooks come before a number: all of them but the reserved one. */
  function BooksBefore(number: nat): nat {
    if number == 0 then 0 else BooksBefore(number - 1) + if number - 1 == 12 then 0 else 1
  }

  lemma {:induction false} BooksBeforeIs(number: nat)
    ensures BooksBefore(number) == if number <= 12 then number else number - 1
  {
    if number > 0 {
      BooksBeforeIs(number - 1);
    }
  }

  /** The indices of the trellis stand for the codebooks in the order of their numbers. */
  lemma OutMapRises(i: nat, k: nat)
    requires i < k < CODEBOOKS
    ensures OutMap(i) < OutMap(k)
  {
  }

  /** Which codebook a band may be sent with, by its number: 0 for a zero band; else the one chosen so far
      or a later one, and of those behind the reserved one only the one chosen. */
  predicate MayUse(b: Band, number: nat) {
    if b.zero then number == 0
    else
      && number < 16 && number != 12 && (b.bandType == 12 || b.bandType <= number)
      && (number > 12 ==> b.bandType == number)
  }

  lemma AllowedIff(b: Band, cb: nat)
    requires cb < CODEBOOKS
    ensures Allowed(b, cb) <==> MayUse(b, OutMap(cb))
  {
  }

  /** What a decoder makes of an assignment: codebooks each band may use, and of each so many before it as
      the index says. */
  lemma NumbersReadBack(w: Window, bands: seq<Band>, asg: seq<nat>, rest: Word)
    requires Admissible(bands, asg)
    ensures Proper(RunLengths(asg))
    ensures var p := Parse(w, |asg|, 0, Write(w, RunLengths(asg)) + rest);
            && p.Parsed? && p.rest == rest && |p.value| == |asg|
            && forall i :: 0 <= i < |asg| ==> MayUse(bands[i], p.value[i]) && BooksBefore(p.value[i]) == asg[i]
  {
    SectionsRoundTrip(w, asg, rest);
    forall i | 0 <= i < |asg|
      ensures MayUse(bands[i], OutMap(asg[i])) && BooksBefore(OutMap(asg[i])) == asg[i]
    {
      AllowedIff(bands[i], asg[i]);
      BooksBeforeIs(OutMap(asg[i]));
    }
    hide Parse, Write, RunLengths, MayUse;
  }
}
