/** Where the trellis stops being right: from the escape length on it is not optimal, and above the
    sentinel it is not even admissible. */
module TrellisLimits {
  import opened Trellis
  import opened TrellisSections
  import opened TrellisCost

  // ------------------------------------------------------------------ optimal in bits written

  /** The selected assignment spends no more bits than any other. */
  ghost predicate Optimal(w: Window, bands: seq<Band>)
    requires Fits(w, bands) && Selects(w, bands) && |bands| > 0
  {
    forall other: seq<nat> :: Admissible(bands, other) && |other| == |bands| ==>
      RealBits(w, bands, Chosen(w, bands)) <= RealBits(w, bands, other)
  }

  /** Short assignments are charged what they really take. */
  lemma RealIsCharge(w: Window, bands: seq<Band>, asg: seq<nat>)
    requires Fits(w, bands) && Admissible(bands, asg) && |asg| < 2 * RunEsc(w)
    ensures RealBits(w, bands, asg) == Charge(w, bands, asg)
  {
    hide Charge, RealBits, RunLengths, Undercharged;
    RealBitsOf(w, bands, asg);
    RunLengthsProper(asg);
    UnderchargedNone(w, RunLengths(asg));
  }

  lemma FlatIsReal(w: Window, bands: seq<Band>, asg: seq<nat>)
    requires Fits(w, bands) && Admissible(bands, asg) && |asg| < RunEsc(w)
    ensures RealBits(w, bands, asg) == FlatCharge(w, bands, asg)
  {
    ShortRunsAreFlat(w, bands, asg);
    RealIsCharge(w, bands, asg);
  }

  lemma OptimalBelowEscape(w: Window, bands: seq<Band>)
    requires Fits(w, bands) && Selects(w, bands) && 0 < |bands| < RunEsc(w)
    ensures Optimal(w, bands)
  {
    ChosenCharge(w, bands);
    var chosen := Chosen(w, bands);
    ShortRunsAreFlat(w, bands, chosen);
    FlatIsReal(w, bands, chosen);
    hide RealBits, Chosen, FlatCharge, Admissible, Charge;
    forall other: seq<nat> | Admissible(bands, other) && |other| == |bands|
      ensures RealBits(w, bands, chosen) <= RealBits(w, bands, other)
    {
      CellsAreLeast(w, bands, other);
      FlatIsReal(w, bands, other);
    }
  }

  // ------------------------------------------------------------------ a case at the escape length

  /** Codebook 10 is a little cheaper for the first band, but only 11 will do for the others. */
  function Tempting(n: nat): (bands: seq<Band>)
    ensures |bands| == n && Sized(bands)
  {
    seq(n, i requires 0 <= i < n =>
      if i == 0 then Band(false, 10, seq(CODEBOOKS, cb => if cb == 11 then 5 else 0)) else Band(false, 11, NO_BITS))
  }

  /** Staying with 11 throughout, one more field when the run reaches the escape length. */
  function StayCost(w: Window, n: nat): nat {
    Opening(w) + 5 + if n == RunEsc(w) then RunBits(w) else 0
  }

  predicate TemptingRow(w: Window, bands: seq<Band>, n: nat)
    requires Fits(w, bands) && 0 < n <= |bands|
  {
    && CellAt(w, bands, n, 11).cost == StayCost(w, n) && CellAt(w, bands, n, 11).run == n
    && BestAt(w, bands, n).bits == if n == 1 then Opening(w) else StayCost(w, n)
  }

  lemma TemptingFirst(w: Window, bands: seq<Band>)
    requires bands == Tempting(RunEsc(w))
    ensures Fits(w, bands) && TemptingRow(w, bands, 1)
  {
    FirstCellShape(w, bands, 10);
    FirstCellShape(w, bands, 11);
    hide RowAt;
    assert forall cb: nat :: Allowed(bands[0], cb) ==> cb == 10 || cb == 11;
  }

  /** Only 11 is open to a band after the first, and costs nothing there. */
  lemma OnlyEleven(w: Window, n: nat)
    requires 1 < n <= RunEsc(w)
    ensures var b := Tempting(RunEsc(w))[n - 1];
            Allowed(b, 11) && BandBits(b, 11) == 0 && forall cb: nat :: Allowed(b, cb) ==> cb == 11
  {
  }

  /** Staying is never dearer than opening a new section. */
  lemma StayingWins(w: Window, n: nat, stay: Cell, best: Best)
    requires 1 < n <= RunEsc(w) && stay.run == n - 1 && stay.cost == StayCost(w, n - 1)
    requires best.Best? && best.bits == if n == 2 then Opening(w) else StayCost(w, n - 1)
    ensures NextCell(w, stay, best, 0, 11) == Cell(11, StayCost(w, n), n)
  {
  }

  lemma TemptingNext(w: Window, bands: seq<Band>, n: nat)
    requires bands == Tempting(RunEsc(w)) && Fits(w, bands) && 1 < n <= RunEsc(w) && TemptingRow(w, bands, n - 1)
    ensures TemptingRow(w, bands, n)
  {
    var row := RowAt(w, bands, n - 1);
    assert RowAt(w, bands, n).cells[11] == NextCellOf(w, row, bands[n - 1], 11);
    assert row.best == BestAt(w, bands, n - 1) && row.cells[11] == CellAt(w, bands, n - 1, 11);
    hide RowAt, Tempting, NextCell, Allowed, BandBits, StayCost;
    OnlyEleven(w, n);
    StayingWins(w, n, row.cells[11], row.best);
  }

  lemma {:induction false} TemptingRows(w: Window, bands: seq<Band>, n: nat)
    requires bands == Tempting(RunEsc(w)) && 0 < n <= RunEsc(w)
    ensures Fits(w, bands) && TemptingRow(w, bands, n)
    decreases n
  {
    hide RowAt, TemptingRow, Tempting;
    TemptingFirst(w, bands);
    if n > 1 {
      TemptingRows(w, bands, n - 1);
      TemptingNext(w, bands, n);
    }
  }

  lemma TemptingSelects(w: Window, bands: seq<Band>)
    requires bands == Tempting(RunEsc(w))
    ensures Fits(w, bands) && Selects(w, bands)
  {
    TemptingRows(w, bands, RunEsc(w));
    BelowSelects(w, bands);
  }

  /** Codebook 10, then 11 for k bands. */
  function Switching(k: nat): (asg: seq<nat>)
    ensures |asg| == k + 1
  {
    [10] + Repeat(11, k)
  }

  lemma SwitchingGrows(w: Window, k: nat)
    requires k < RunEsc(w)
    ensures k > 0 ==> Switching(k) == Switching(k - 1) + [11]
    ensures Switching(0) == [] + [10] && Switching(0)[0] == 10
    ensures k > 0 ==> Switching(k)[k] == 11 && Allowed(Tempting(RunEsc(w))[k], 11)
                      && BandBits(Tempting(RunEsc(w))[k], 11) == 0
    ensures Allowed(Tempting(RunEsc(w))[0], 10) && BandBits(Tempting(RunEsc(w))[0], 10) == 0
  {
  }

  lemma ChargeOfNone(w: Window, bands: seq<Band>)
    requires Fits(w, bands)
    ensures Admissible(bands, []) && Charge(w, bands, []) == 0
  {
  }

  lemma NoGrowth(w: Window, run: nat)
    requires run + 1 < RunEsc(w)
    ensures Growth(w, run) == 0
  {
  }

  /** What the trellis would charge for switching after the first band. */
  predicate Charged(w: Window, bands: seq<Band>, k: nat)
    requires Fits(w, bands)
  {
    && Admissible(bands, Switching(k)) && LastRun(Switching(k)) == (if k == 0 then 1 else k)
    && Charge(w, bands, Switching(k)) == if k == 0 then Opening(w) else 2 * Opening(w)
  }

  lemma ChargedFirst(w: Window, bands: seq<Band>)
    requires bands == Tempting(RunEsc(w)) && Fits(w, bands)
    ensures Charged(w, bands, 0)
  {
    SwitchingGrows(w, 0);
    hide Charge, LastRun, Tempting, Switching, Admissible, Allowed, BandBits;
    ChargeOfNone(w, bands);
    ChargeSnoc(w, bands, [], 10);
  }

  lemma ChargedNext(w: Window, bands: seq<Band>, k: nat)
    requires bands == Tempting(RunEsc(w)) && Fits(w, bands) && 0 < k < RunEsc(w) && Charged(w, bands, k - 1)
    ensures Charged(w, bands, k)
  {
    SwitchingGrows(w, k);
    SwitchingGrows(w, k - 1);
    NoGrowth(w, k - 1);
    hide Charge, LastRun, Tempting, Switching, Admissible, Allowed, BandBits, Growth, Opening, RunEsc;
    ChargeSnoc(w, bands, Switching(k - 1), 11);
  }

  lemma {:induction false} SwitchingCharge(w: Window, bands: seq<Band>, k: nat)
    requires bands == Tempting(RunEsc(w)) && Fits(w, bands) && k < RunEsc(w)
    ensures Charged(w, bands, k)
    decreases k
  {
    hide Charged, Tempting;
    if k == 0 {
      ChargedFirst(w, bands);
    } else {
      SwitchingCharge(w, bands, k - 1);
      ChargedNext(w, bands, k);
    }
  }

  lemma StayingIsWritten(w: Window, bands: seq<Band>)
    requires bands == Tempting(RunEsc(w)) && Fits(w, bands) && Selects(w, bands)
    ensures RealBits(w, bands, Chosen(w, bands)) >= Opening(w) + 5 + RunBits(w)
  {
    hide RowAt, Tempting, Undercharged, RunLengths, Charge, RealBits, Chosen;
    TemptingRows(w, bands, RunEsc(w));
    CostOfChosen(w, bands);
  }

  lemma SwitchingIsWritten(w: Window, bands: seq<Band>)
    requires bands == Tempting(RunEsc(w)) && Fits(w, bands)
    ensures Admissible(bands, Switching(RunEsc(w) - 1))
    ensures RealBits(w, bands, Switching(RunEsc(w) - 1)) == 2 * Opening(w)
  {
    var other := Switching(RunEsc(w) - 1);
    hide Tempting, Charge, RealBits, Switching, LastRun;
    SwitchingCharge(w, bands, RunEsc(w) - 1);
    RealIsCharge(w, bands, other);
  }

  /** With as many bands as the escape length the bits written for the selection are more than needed:
      switching after the first band saves the second length field. */
  lemma TemptingIsNotOptimal(w: Window)
    ensures var bands := Tempting(RunEsc(w)); Fits(w, bands) && Selects(w, bands) && !Optimal(w, bands)
  {
    var bands := Tempting(RunEsc(w));
    hide Tempting, RealBits, Chosen, Switching, Admissible;
    TemptingSelects(w, bands);
    StayingIsWritten(w, bands);
    SwitchingIsWritten(w, bands);
    assert |bands| == |Switching(RunEsc(w) - 1)|;
  }

  /** Counting the bits really written, the selection is optimal on all inputs of at most so many bands
      if and only if these are fewer than the escape length. */
  lemma OptimalIff(w: Window, most: nat)
    requires 0 < most < RunTableSize(w)
    ensures most < RunEsc(w) <==>
            forall bands: seq<Band> :: 0 < |bands| <= most && Fits(w, bands) && Selects(w, bands) ==> Optimal(w, bands)
  {
    if most < RunEsc(w) {
      forall bands: seq<Band> | 0 < |bands| <= most && Fits(w, bands) && Selects(w, bands)
        ensures Optimal(w, bands)
      {
        OptimalBelowEscape(w, bands);
      }
    } else {
      TemptingIsNotOptimal(w);
    }
  }

  // ------------------------------------------------------------------ the sentinel

  /** Below the escape length the last row is below the sentinel exactly when some choice of codebooks is. */
  lemma BelowIff(w: Window, bands: seq<Band>)
    requires Fits(w, bands) && 0 < |bands| < RunEsc(w)
    ensures BestAt(w, bands, |bands|).bits < SENTINEL <==>
            exists asg :: Admissible(bands, asg) && |asg| == |bands| && FlatCharge(w, bands, asg) < SENTINEL
  {
    hide RowAt, Admissible, FlatCharge;
    if BestAt(w, bands, |bands|).bits < SENTINEL {
      BelowSelects(w, bands);
      ChosenCharge(w, bands);
      ShortRunsAreFlat(w, bands, Chosen(w, bands));
    } else {
      forall asg | Admissible(bands, asg) && |asg| == |bands|
        ensures FlatCharge(w, bands, asg) >= SENTINEL
      {
        CellsAreLeast(w, bands, asg);
      }
    }
  }

  /** Some codebook is closed to every band. */
  lemma SomeClosed(b: Band) returns (cb: nat)
    ensures cb < CODEBOOKS && !Allowed(b, cb)
  {
    cb := if b.zero || b.bandType != OutMap(14) then 14 else 13;
  }

  predicate OpenBelow(b: Band, n: nat) {
    forall cb :: 0 <= cb < n ==> Allowed(b, cb)
  }

  lemma FirstLeastOpenIff(cells: seq<Cell>, b: Band)
    requires |cells| == CODEBOOKS && forall cb :: 0 <= cb < CODEBOOKS && !Allowed(b, cb) ==> cells[cb].cost == SENTINEL
    requires BestOf(cells, b, CODEBOOKS).Best?
    ensures var best := BestOf(cells, b, CODEBOOKS);
            Allowed(b, FinalIndex(cells, CODEBOOKS)) <==>
              best.bits < SENTINEL || (best.bits == SENTINEL && OpenBelow(b, best.cb))
  {
    var idx, best := FinalIndex(cells, CODEBOOKS), BestOf(cells, b, CODEBOOKS);
    var closed := SomeClosed(b);
    hide FinalIndex, BestOf, Allowed;
    assert cells[idx].cost <= cells[closed].cost == SENTINEL;
    assert cells[idx].cost <= cells[best.cb].cost == best.bits;
    assert Allowed(b, idx) ==> best.bits <= cells[idx].cost && idx >= best.cb;
    if best.bits == SENTINEL && !OpenBelow(b, best.cb) {
      var cb :| 0 <= cb < best.cb && !Allowed(b, cb);
      assert cells[cb].cost == SENTINEL;
    }
  }

  lemma LastCells(w: Window, bands: seq<Band>)
    requires Fits(w, bands) && |bands| > 0
    ensures var cells, b := RowAt(w, bands, |bands|).cells, bands[|bands| - 1];
            && (forall cb :: 0 <= cb < CODEBOOKS && !Allowed(b, cb) ==> cells[cb].cost == SENTINEL)
            && BestAt(w, bands, |bands|) == BestOf(cells, b, CODEBOOKS)
  {
  }

  /** The selection ends in a codebook its band may use exactly when the cheapest open cell is below the
      sentinel, or meets it before any closed one. */
  lemma EndsOpenIff(w: Window, bands: seq<Band>)
    requires Fits(w, bands) && |bands| > 0
    ensures var n, best := |bands|, BestAt(w, bands, |bands|);
            Allowed(bands[n - 1], FinalIndex(RowAt(w, bands, n).cells, CODEBOOKS)) <==>
              || best.bits < SENTINEL
              || (best.bits == SENTINEL && OpenBelow(bands[n - 1], best.cb))
  {
    LastCells(w, bands);
    hide RowAt, FinalIndex, BestOf, Allowed, OpenBelow;
    FirstLeastOpenIff(RowAt(w, bands, |bands|).cells, bands[|bands| - 1]);
  }

  /** The run of a cell began with the first band, or by opening a section: not by staying in a closed
      cell. */
  predicate Opened(w: Window, bands: seq<Band>, n: nat, cb: nat)
    requires Fits(w, bands) && 0 < n <= |bands| && cb < CODEBOOKS
  {
    var run := CellAt(w, bands, n, cb).run;
    0 < run <= n && (run == n || CellAt(w, bands, n - run + 1, cb).prev != cb)
  }

  /** A section that was opened came from a cheaper cell. */
  lemma OpenedFrom(w: Window, bands: seq<Band>, n: nat, cb: nat, prev: nat)
    requires Fits(w, bands) && 1 < n <= |bands| && Allowed(bands[n - 1], cb)
    requires CellAt(w, bands, n, cb).prev == prev != cb
    ensures Allowed(bands[n - 2], prev) && CellAt(w, bands, n - 1, prev).cost < CellAt(w, bands, n, cb).cost
  {
    var from := CellFrom(w, bands, n, cb);
  }

  /** Costs do not fall along a run. */
  lemma {:induction false} RunRises(w: Window, bands: seq<Band>, n: nat, cb: nat, k: nat)
    requires Fits(w, bands) && 0 < n <= |bands| && Allowed(bands[n - 1], cb) && k < CellAt(w, bands, n, cb).run <= n
    ensures Allowed(bands[n - k - 1], cb) && CellAt(w, bands, n - k, cb).cost <= CellAt(w, bands, n, cb).cost
    decreases n
  {
    hide RowAt;
    if k > 0 {
      var from := CellFrom(w, bands, n, cb);
      ClosedCell(w, bands, n - 1, cb);
      assert from == cb && CellAt(w, bands, n, cb).run == CellAt(w, bands, n - 1, cb).run + 1;
      RunRises(w, bands, n - 1, cb, k - 1);
    }
  }

  /** At the sentinel a cell stands for an admissible assignment exactly when its run was opened. */
  lemma TiedIff(w: Window, bands: seq<Band>, n: nat, cb: nat)
    requires Fits(w, bands) && 0 < n <= |bands| && Allowed(bands[n - 1], cb) && CellAt(w, bands, n, cb).cost <= SENTINEL
    ensures Admissible(bands, Trace(w, bands, n, cb)) <==> Opened(w, bands, n, cb)
  {
    hide RowAt, Trace, Admissible;
    ClosedCell(w, bands, n, cb);
    var l := Jump(w, bands, n, cb);
    var run := CellAt(w, bands, n, cb).run;
    LandingAdmissible(w, bands, n, cb, run, Trace(w, bands, n, cb), l);
    RunRises(w, bands, n, cb, run - 1);
    LandedIff(w, bands, l.start, cb, l.prev);
  }

  /** What lies before a run that starts behind the given row. */
  lemma LandedIff(w: Window, bands: seq<Band>, start: nat, cb: nat, prev: nat)
    requires Fits(w, bands) && start < |bands| && Allowed(bands[start], cb) && prev < CODEBOOKS
    requires CellAt(w, bands, start + 1, cb).cost <= SENTINEL && CellAt(w, bands, start + 1, cb).run == 1
    requires CellAt(w, bands, start + 1, cb).prev == prev
    ensures Admissible(bands, Trace(w, bands, start, prev)) <==> start == 0 || prev != cb
  {
    hide RowAt;
    if start > 0 {
      var asg := Trace(w, bands, start, prev);
      if prev != cb {
        OpenedFrom(w, bands, start + 1, cb, prev);
        CheapIsAdmissible(w, bands, start, prev);
      } else {
        var from := CellFrom(w, bands, start + 1, cb);
        ClosedCell(w, bands, start, cb);
        assert asg[start - 1] == cb;
      }
    }
  }

  /** On every input there is a selection if and only if the cheapest open cell of the last row is below
      the sentinel; or equals it, no closed cell comes before it, and its run was opened. */
  lemma SelectsIff(w: Window, bands: seq<Band>)
    requires Fits(w, bands) && |bands| > 0
    ensures var n, best := |bands|, BestAt(w, bands, |bands|);
            Selects(w, bands) <==>
              || best.bits < SENTINEL
              || (best.bits == SENTINEL && OpenBelow(bands[n - 1], best.cb) && Opened(w, bands, n, best.cb))
  {
    hide RowAt, FinalIndex, OpenBelow, Opened, Trace;
    var n, best := |bands|, BestAt(w, bands, |bands|);
    var idx := FinalIndex(RowAt(w, bands, n).cells, CODEBOOKS);
    EndsOpenIff(w, bands);
    if best.bits < SENTINEL {
      BelowSelects(w, bands);
    } else {
      assert Chosen(w, bands)[n - 1] == idx by { ChosenEnds(w, bands); }
      if Allowed(bands[n - 1], idx) {
        FinalIsBest(w, bands);
        TiedIff(w, bands, n, idx);
      }
    }
  }

  function Costly(): (bands: seq<Band>)
    ensures |bands| == 1 && Sized(bands)
  {
    [Band(false, 11, seq(CODEBOOKS, _ => SENTINEL))]
  }

  lemma CostlyBest(w: Window)
    ensures Fits(w, Costly()) && BestAt(w, Costly(), 1).bits > SENTINEL
  {
    var bands := Costly();
    var b := bands[0];
    FirstCellShape(w, bands, 11);
    hide RowAt;
    assert forall cb: nat :: Allowed(b, cb) ==> cb == 11;
  }

  lemma ChosenEnds(w: Window, bands: seq<Band>)
    requires Fits(w, bands) && |bands| > 0
    ensures Chosen(w, bands)[|bands| - 1] == FinalIndex(RowAt(w, bands, |bands|).cells, CODEBOOKS)
  {
    hide RowAt, FinalIndex;
  }

  /** One band whose coefficients cost as much as the sentinel: a codebook closed to it is selected. */
  lemma SentinelIsSelected(w: Window)
    ensures Fits(w, Costly()) && !Admissible(Costly(), Chosen(w, Costly()))
  {
    hide RowAt, FinalIndex, Costly, Chosen;
    CostlyBest(w);
    EndsOpenIff(w, Costly());
    ChosenEnds(w, Costly());
  }

  /** A band that only codebook 11 will do for, and a zero band: staying in the closed codebook 0 ties
      with opening a section, at exactly the sentinel, and wins. */
  function Tied(w: Window): (bands: seq<Band>)
    ensures |bands| == 2 && Sized(bands)
  {
    [Band(false, 11, seq(CODEBOOKS, _ => SENTINEL - 2 * Opening(w))), Band(true, 0, seq(CODEBOOKS, _ => 0))]
  }

  lemma TiedFirst(w: Window)
    ensures Fits(w, Tied(w)) && BestAt(w, Tied(w), 1) == Best(SENTINEL - Opening(w), 11)
    ensures CellAt(w, Tied(w), 1, 0) == CLOSED
  {
    var bands := Tied(w);
    FirstCellShape(w, bands, 11);
    assert RowAt(w, bands, 1).cells[0] == NextCellOf(w, RowAt(w, bands, 0), bands[0], 0);
    hide RowAt;
    assert forall cb: nat :: Allowed(bands[0], cb) ==> cb == 11;
  }

  lemma TiedLast(w: Window)
    ensures Fits(w, Tied(w)) && CellAt(w, Tied(w), 2, 0) == Cell(0, SENTINEL, 1)
    ensures BestAt(w, Tied(w), 2) == Best(SENTINEL, 0)
  {
    var bands := Tied(w);
    TiedFirst(w);
    CellShape(w, bands, 2, 0);
    hide RowAt;
    assert forall cb: nat :: Allowed(bands[1], cb) ==> cb == 0;
  }

  /** The last band gets a codebook it may use, and yet there is no selection. */
  lemma TiedIsNotSelected(w: Window)
    ensures Fits(w, Tied(w)) && !Selects(w, Tied(w))
    ensures Allowed(Tied(w)[1], FinalIndex(RowAt(w, Tied(w), 2).cells, CODEBOOKS))
  {
    hide RowAt, Tied, FinalIndex, Selects;
    TiedLast(w);
    EndsOpenIff(w, Tied(w));
    SelectsIff(w, Tied(w));
  }
}
