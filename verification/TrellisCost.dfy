/** How the cost the trellis minimises compares with the bits that are really written. */
module TrellisCost {
  import opened BitStrings
  import opened Sums
  import opened Trellis
  import opened TrellisSections

  function TotalBandBits(bands: seq<Band>, asg: seq<nat>): nat
    requires Sized(bands) && Admissible(bands, asg)
  {
    var n := |asg|;
    if n == 0 then 0 else TotalBandBits(bands, asg[..n - 1]) + BandBits(bands[n - 1], asg[n - 1])
  }

  /** The bits of the bands are those of the coefficients in the codebooks used; a zero band has none. */
  lemma {:induction false} BitsOfBands(bands: seq<Band>, asg: seq<nat>, used: seq<nat>)
    requires Sized(bands) && Admissible(bands, asg) && |used| == |asg|
    requires forall i :: 0 <= i < |asg| ==> used[i] == if bands[i].zero then 0 else bands[i].bits[asg[i]]
    ensures TotalBandBits(bands, asg) == Sum(used)
    decreases |asg|
  {
    if |asg| > 0 {
      BitsOfBands(bands, asg[..|asg| - 1], used[..|asg| - 1]);
      assert used == used[..|asg| - 1] + [used[|asg| - 1]];
    }
  }

  /** What the encoder's table charges for a list of sections. */
  function TablePrice(w: Window, secs: seq<Section>): nat
    requires forall s :: s in secs ==> s.run < RunTableSize(w)
  {
    if |secs| == 0 then 0
    else TablePrice(w, secs[..|secs| - 1]) + 4 + RunValueBits(w, secs[|secs| - 1].run)
  }

  lemma TablePriceSnoc(w: Window, init: seq<Section>, s: Section)
    requires forall t :: t in init ==> t.run < RunTableSize(w)
    requires s.run < RunTableSize(w)
    ensures TablePrice(w, init + [s]) == TablePrice(w, init) + 4 + RunValueBits(w, s.run)
  {
  }

  /** Appending a band opens a section or lengthens the last one. */
  lemma RunLengthsSnoc(asg: seq<nat>, cb: nat) returns (head: seq<Section>)
    ensures RunLengths(asg + [cb]) == head + [Section(cb, LastRun(asg + [cb]))]
    ensures RunLengths(asg) == if asg != [] && asg[|asg| - 1] == cb then head + [Section(cb, LastRun(asg))] else head
  {
    var longer := asg + [cb];
    assert longer[..|asg|] == asg;
    var k := LastRun(longer);
    head := RunLengths(longer[..|longer| - k]);
    assert longer[..|longer| - k] == asg[..|longer| - k];
    if asg == [] || asg[|asg| - 1] != cb {
      assert longer[..|longer| - k] == asg;
    }
  }

  lemma PriceGrows(w: Window, head: seq<Section>, cb: nat, k: nat)
    requires forall t :: t in head ==> t.run < RunTableSize(w)
    requires k + 1 < RunTableSize(w)
    ensures TablePrice(w, head + [Section(cb, k + 1)]) == TablePrice(w, head + [Section(cb, k)]) + Growth(w, k)
  {
  }

  lemma RunsInTable(w: Window, asg: seq<nat>)
    requires |asg| < RunTableSize(w)
    ensures forall s :: s in RunLengths(asg) ==> s.run < RunTableSize(w)
  {
  }

  lemma LastRunSnoc(asg: seq<nat>, cb: nat)
    ensures LastRun(asg + [cb]) == if asg != [] && asg[|asg| - 1] == cb then LastRun(asg) + 1 else 1
  {
  }

  /** The table's price grows with the last band just as the trellis charges it. */
  lemma PriceSnoc(w: Window, asg: seq<nat>, cb: nat)
    requires |asg| + 1 < RunTableSize(w)
    ensures forall s :: s in RunLengths(asg) ==> s.run < RunTableSize(w)
    ensures forall s :: s in RunLengths(asg + [cb]) ==> s.run < RunTableSize(w)
    ensures TablePrice(w, RunLengths(asg + [cb])) == TablePrice(w, RunLengths(asg))
      + if asg != [] && asg[|asg| - 1] == cb then Growth(w, LastRun(asg)) else Opening(w)
  {
    var head := RunLengthsSnoc(asg, cb);
    RunsInTable(w, asg);
    RunsInTable(w, asg + [cb]);
    LastRunSnoc(asg, cb);
    assert forall s :: s in head ==> s in head + [Section(cb, LastRun(asg + [cb]))];
    if asg != [] && asg[|asg| - 1] == cb {
      PriceGrows(w, head, cb, LastRun(asg));
    } else {
      TablePriceSnoc(w, head, Section(cb, 1));
    }
  }

  /** Step-by-step charging adds up to the table's price of every section. */
  lemma {:induction false} ChargeBySections(w: Window, bands: seq<Band>, asg: seq<nat>)
    requires Fits(w, bands) && Admissible(bands, asg)
    ensures forall s :: s in RunLengths(asg) ==> s.run < RunTableSize(w)
    ensures Charge(w, bands, asg) == TotalBandBits(bands, asg) + TablePrice(w, RunLengths(asg))
    decreases |asg|
  {
    if |asg| > 0 {
      var pre, cb := asg[..|asg| - 1], asg[|asg| - 1];
      assert asg == pre + [cb];
      ChargeBySections(w, bands, pre);
      ChargeSnoc(w, bands, pre, cb);
      PriceSnoc(w, pre, cb);
    }
  }

  // ------------------------------------------------------------------ against the writer

  /** How many sections take a third length field that the table leaves out. */
  function Undercharged(w: Window, secs: seq<Section>): nat {
    if |secs| == 0 then 0
    else Undercharged(w, secs[..|secs| - 1]) + if secs[|secs| - 1].run == 2 * RunEsc(w) then 1 else 0
  }

  /** The table is right for every run it covers except twice the escape length. */
  lemma FieldLength(w: Window, run: nat)
    requires run < RunTableSize(w)
    ensures |RunField(w, run)| == RunValueBits(w, run) + if run == 2 * RunEsc(w) then RunBits(w) else 0
  {
  }

  lemma {:induction false} WrittenLength(w: Window, secs: seq<Section>)
    requires forall s :: s in secs ==> s.cb < CODEBOOKS && s.run < RunTableSize(w)
    ensures |Write(w, secs)| == TablePrice(w, secs) + RunBits(w) * Undercharged(w, secs)
  {
    if |secs| > 0 {
      hide Bits, RunField, RunValueBits, RunBits;
      var init := secs[..|secs| - 1];
      WrittenLength(w, init);
      FieldLength(w, secs[|secs| - 1].run);
      assert RunBits(w) * (Undercharged(w, init) + 1) == RunBits(w) * Undercharged(w, init) + RunBits(w);
    }
  }

  lemma AdmissibleInRange(bands: seq<Band>, asg: seq<nat>)
    requires Admissible(bands, asg)
    ensures forall i :: 0 <= i < |asg| ==> asg[i] < CODEBOOKS
    ensures forall s :: s in RunLengths(asg) ==> s.cb < CODEBOOKS
  {
    RunsInRange(asg);
  }

  /** All bits of an assignment: what the writer puts out for it and its coefficients. */
  function RealBits(w: Window, bands: seq<Band>, asg: seq<nat>): nat
    requires Fits(w, bands) && Admissible(bands, asg)
  {
    AdmissibleInRange(bands, asg);
    |Write(w, RunLengths(asg))| + TotalBandBits(bands, asg)
  }

  /** The trellis charges any assignment the bits really spent, less one length field for every section
      exactly twice as long as the escape length. */
  lemma RealBitsOf(w: Window, bands: seq<Band>, asg: seq<nat>)
    requires Fits(w, bands) && Admissible(bands, asg)
    ensures RealBits(w, bands, asg) == Charge(w, bands, asg) + RunBits(w) * Undercharged(w, RunLengths(asg))
  {
    AdmissibleInRange(bands, asg);
    ChargeBySections(w, bands, asg);
    WrittenLength(w, RunLengths(asg));
    hide Charge, TotalBandBits, Write, TablePrice, Undercharged, RunLengths;
  }

  /** So it is for the selected assignment and the cost of its cell. */
  lemma CostOfChosen(w: Window, bands: seq<Band>)
    requires Fits(w, bands) && Selects(w, bands) && |bands| > 0
    ensures RealBits(w, bands, Chosen(w, bands))
         == BestAt(w, bands, |bands|).bits + RunBits(w) * Undercharged(w, RunLengths(Chosen(w, bands)))
  {
    ChosenCharge(w, bands);
    RealBitsOf(w, bands, Chosen(w, bands));
  }

  /** What is written for the selected codebooks is parsed back, by their numbers: each is one the band may
      use, and the one whose bits were counted. */
  lemma ChosenReadsBack(w: Window, bands: seq<Band>, rest: Word)
    requires Fits(w, bands) && Selects(w, bands)
    ensures Proper(RunLengths(Chosen(w, bands)))
    ensures var p := Parse(w, |bands|, 0, Write(w, RunLengths(Chosen(w, bands))) + rest);
            && p == Parsed(OutMapped(Chosen(w, bands)), rest)
            && forall i :: 0 <= i < |bands| ==>
                 MayUse(bands[i], p.value[i]) && BooksBefore(p.value[i]) == Chosen(w, bands)[i]
  {
    SectionsRoundTrip(w, Chosen(w, bands), rest);
    NumbersReadBack(w, bands, Chosen(w, bands), rest);
  }

  /** The selected cost is exactly the bits spent. */
  ghost predicate CostExact(w: Window, bands: seq<Band>)
    requires Fits(w, bands) && Selects(w, bands) && |bands| > 0
  {
    BestAt(w, bands, |bands|).bits == RealBits(w, bands, Chosen(w, bands))
  }

  lemma {:induction false} UnderchargedNone(w: Window, secs: seq<Section>)
    requires forall s :: s in secs ==> s.run < 2 * RunEsc(w)
    ensures Undercharged(w, secs) == 0
  {
    if |secs| > 0 {
      UnderchargedNone(w, secs[..|secs| - 1]);
    }
  }

  lemma ExactWhenShort(w: Window, bands: seq<Band>)
    requires Fits(w, bands) && Selects(w, bands) && 0 < |bands| < 2 * RunEsc(w)
    ensures CostExact(w, bands)
  {
    CostOfChosen(w, bands);
    RunLengthsProper(Chosen(w, bands));
    UnderchargedNone(w, RunLengths(Chosen(w, bands)));
  }

  // ------------------------------------------------------------------ where it is not exact

  lemma BestStep(w: Window, bands: seq<Band>, n: nat, cb: nat)
    requires Fits(w, bands) && 0 < n <= |bands| && Allowed(bands[n - 1], cb)
    ensures BestAt(w, bands, n).bits <=
            BandBits(bands[n - 1], cb) + Opening(w) + if n > 1 then BestAt(w, bands, n - 1).bits else 0
  {
    assert RowAt(w, bands, n).cells[cb] == NextCellOf(w, RowAt(w, bands, n - 1), bands[n - 1], cb);
  }

  /** The charge for opening n sections. */
  function Openings(w: Window, n: nat): nat {
    if w.Long? then 9 * n else 7 * n
  }

  /** The cheapest cell of a row costs at most any assignment's coefficients and a section per band. */
  lemma {:induction false} BestAtMost(w: Window, bands: seq<Band>, asg: seq<nat>, n: nat)
    requires Fits(w, bands) && Admissible(bands, asg) && 0 < n <= |asg|
    ensures BestAt(w, bands, n).bits <= TotalBandBits(bands, asg[..n]) + Openings(w, n)
  {
    assert Allowed(bands[n - 1], asg[n - 1]);
    assert asg[..n][..n - 1] == asg[..n - 1] && asg[..n][n - 1] == asg[n - 1];
    BestStep(w, bands, n, asg[n - 1]);
    hide RowAt, BestAt, BandBits, Allowed;
    if n > 1 {
      BestAtMost(w, bands, asg, n - 1);
    }
  }

  /** For any number of bands there is a selection as soon as some admissible assignment's coefficients,
      with a section for each band, stay below the sentinel. */
  lemma AffordableSelects(w: Window, bands: seq<Band>, asg: seq<nat>)
    requires Fits(w, bands) && Admissible(bands, asg) && |asg| == |bands|
    requires TotalBandBits(bands, asg) + Openings(w, |bands|) < SENTINEL
    ensures Selects(w, bands)
  {
    if |bands| > 0 {
      BestAtMost(w, bands, asg, |bands|);
      assert asg[..|bands|] == asg;
      BelowSelects(w, bands);
    }
  }

  /** The most bits a coefficient takes: half of a pair's word of 12 bits, a sign, and 21 bits of escape. */
  const COEFFICIENT_BITS: nat := 28
  const COEFFICIENTS: nat := 1024

  /** Bands of so many coefficients each take no more than their coefficients can. */
  ghost predicate Coded(bands: seq<Band>, sizes: seq<nat>) {
    && |sizes| == |bands| && Sized(bands) && Sum(sizes) <= COEFFICIENTS
    && forall i, cb :: 0 <= i < |bands| && Allowed(bands[i], cb) ==>
         BandBits(bands[i], cb) <= COEFFICIENT_BITS * sizes[i]
  }

  function Least(bands: seq<Band>): (asg: seq<nat>)
    ensures |asg| == |bands| && Admissible(bands, asg)
  {
    seq(|bands|, i requires 0 <= i < |bands| => LeastAllowed(bands[i]))
  }

  lemma {:induction false} TotalAtMost(bands: seq<Band>, sizes: seq<nat>, asg: seq<nat>)
    requires Sized(bands) && |sizes| == |bands| && Admissible(bands, asg)
    requires forall i, cb :: 0 <= i < |bands| && Allowed(bands[i], cb) ==>
               BandBits(bands[i], cb) <= COEFFICIENT_BITS * sizes[i]
    ensures TotalBandBits(bands, asg) <= COEFFICIENT_BITS * Sum(sizes[..|asg|])
    decreases |asg|
  {
    var n := |asg|;
    if n > 0 {
      assert Allowed(bands[n - 1], asg[n - 1]);
      TotalAtMost(bands, sizes, asg[..n - 1]);
      assert sizes[..n][..n - 1] == sizes[..n - 1];
    }
  }

  /** The sentinel is beyond the reach of real coefficients: for these there is always a selection. */
  lemma CodedSelects(w: Window, bands: seq<Band>, sizes: seq<nat>)
    requires Fits(w, bands) && Coded(bands, sizes)
    ensures Selects(w, bands)
  {
    TotalAtMost(bands, sizes, Least(bands));
    assert sizes[..|bands|] == sizes;
    AffordableSelects(w, bands, Least(bands));
  }

  const NO_BITS: seq<nat> := seq(CODEBOOKS, _ => 0)

  /** Zero bands up to twice the escape length, then bands that need a codebook. */
  function Silence(w: Window, n: nat): (bands: seq<Band>)
    ensures |bands| == n && Sized(bands)
  {
    seq(n, i requires 0 <= i < n => Band(i < 2 * RunEsc(w), 1, NO_BITS))
  }

  function SilenceAssigned(w: Window, n: nat): (asg: seq<nat>)
    ensures |asg| == n && Admissible(Silence(w, n), asg)
  {
    seq(n, i requires 0 <= i < n => if i < 2 * RunEsc(w) then 0 else 1)
  }

  lemma {:induction false} SilenceCostsNothing(w: Window, n: nat, asg: seq<nat>)
    requires Admissible(Silence(w, n), asg)
    ensures TotalBandBits(Silence(w, n), asg) == 0
    decreases |asg|
  {
    if |asg| > 0 {
      SilenceCostsNothing(w, n, asg[..|asg| - 1]);
    }
  }

  lemma SilenceSelects(w: Window, n: nat)
    requires n < RunTableSize(w)
    ensures Fits(w, Silence(w, n)) && Selects(w, Silence(w, n))
  {
    SilenceCostsNothing(w, n, SilenceAssigned(w, n));
    AffordableSelects(w, Silence(w, n), SilenceAssigned(w, n));
  }

  lemma {:induction false} LastRunOfRepeat(cb: nat, n: nat)
    ensures LastRun(Repeat(cb, n)) == n
  {
    if n > 0 {
      LastRunOfRepeat(cb, n - 1);
      assert Repeat(cb, n)[..n - 1] == Repeat(cb, n - 1);
    }
  }

  lemma UnderchargedSnoc(w: Window, init: seq<Section>, s: Section)
    ensures Undercharged(w, init + [s]) == Undercharged(w, init) + if s.run == 2 * RunEsc(w) then 1 else 0
  {
  }

  /** One section of exactly m bands. */
  lemma OneRun(w: Window, cb: nat, m: nat)
    requires m == 2 * RunEsc(w)
    ensures Undercharged(w, RunLengths(Repeat(cb, m))) == 1
  {
    LastRunOfRepeat(cb, m);
    assert Repeat(cb, m)[..0] == [];
    UnderchargedSnoc(w, [], Section(cb, m));
  }

  lemma SilenceChoice(w: Window, asg: seq<nat>)
    requires 2 * RunEsc(w) <= |asg| < RunTableSize(w) && Admissible(Silence(w, |asg|), asg)
    ensures asg[..2 * RunEsc(w)] == Repeat<nat>(0, 2 * RunEsc(w))
    ensures |asg| > 2 * RunEsc(w) ==> asg[2 * RunEsc(w)] != 0
  {
  }

  /** A band that opens a section of its own adds no undercharge. */
  lemma AppendOther(w: Window, asg: seq<nat>, cb: nat)
    requires asg != [] && asg[|asg| - 1] != cb
    ensures Undercharged(w, RunLengths(asg + [cb])) == Undercharged(w, RunLengths(asg))
  {
  }

  lemma SilenceUndercharged(w: Window, asg: seq<nat>)
    requires 2 * RunEsc(w) <= |asg| < RunTableSize(w) && Admissible(Silence(w, |asg|), asg)
    ensures Undercharged(w, RunLengths(asg)) == 1
  {
    SilenceChoice(w, asg);
    OneRun(w, 0, 2 * RunEsc(w));
    RunTableEnds(w);
    hide Silence, Admissible, RunEsc, RunTableSize;
    OneMore(w, asg, 2 * RunEsc(w));
  }

  /** The table ends where one band more would be two. */
  lemma RunTableEnds(w: Window)
    ensures 0 < 2 * RunEsc(w) && RunTableSize(w) == 2 * RunEsc(w) + 2
  {
  }

  /** A band of another codebook behind a run changes nothing of its undercharge. */
  lemma OneMore(w: Window, asg: seq<nat>, m: nat)
    requires 0 < m <= |asg| <= m + 1 && asg[..m] == Repeat<nat>(0, m) && (|asg| > m ==> asg[m] != 0)
    ensures Undercharged(w, RunLengths(asg)) == Undercharged(w, RunLengths(Repeat<nat>(0, m)))
  {
    var zeros := Repeat<nat>(0, m);
    assert zeros[m - 1] == 0;
    hide RunLengths, Undercharged, Repeat;
    if |asg| == m {
      assert asg[..m] == asg;
    } else {
      assert asg == zeros + [asg[m]];
      AppendOther(w, zeros, asg[m]);
    }
  }

  lemma InexactWhenLong(w: Window, n: nat)
    requires 2 * RunEsc(w) <= n < RunTableSize(w)
    ensures Fits(w, Silence(w, n)) && Selects(w, Silence(w, n)) && !CostExact(w, Silence(w, n))
  {
    hide RowAt, Trace, RunLengths, Silence, Allowed, Undercharged;
    SilenceSelects(w, n);
    CostOfChosen(w, Silence(w, n));
    SilenceUndercharged(w, Chosen(w, Silence(w, n)));
  }

  /** For a given number of bands the cost is exact on every input precisely when that number is
      below twice the escape length: 14 for short windows, and 62 for long ones, which have fewer bands. */
  lemma ExactIff(w: Window, n: nat)
    requires 0 < n < RunTableSize(w)
    ensures n < 2 * RunEsc(w) <==>
            forall bands: seq<Band> :: |bands| == n && Fits(w, bands) && Selects(w, bands) ==> CostExact(w, bands)
  {
    if n < 2 * RunEsc(w) {
      forall bands: seq<Band> | |bands| == n && Fits(w, bands) && Selects(w, bands)
        ensures CostExact(w, bands)
      {
        ExactWhenShort(w, bands);
      }
    } else {
      InexactWhenLong(w, n);
    }
  }
}
