/** The codebook trellis of the AAC encoder: the forward dynamic program over bands and codebooks,
    with run lengths inside the cells, and what its cells are worth. */
module Trellis {
  const CODEBOOKS: nat := 15
  /** Marks a codebook a band may not use; no real path may cost as much. */
  const SENTINEL: nat := 61450

  datatype Window = Long | Short

  function RunBits(w: Window): nat {
    if w.Long? then 5 else 3
  }

  /** The run length field value that announces another field. */
  function RunEsc(w: Window): nat {
    if w.Long? then 31 else 7
  }

  /** How many entries the encoder's run length table has. */
  function RunTableSize(w: Window): nat {
    if w.Long? then 64 else 16
  }

  /** The encoder's table of run length costs. */
  function RunValueBits(w: Window, run: nat): nat
    requires run < RunTableSize(w)
  {
    match w
    case Long => if run < 31 then 5 else if run < 63 then 10 else 15
    case Short => if run < 7 then 3 else if run < 15 then 6 else 9
  }

  /** The charge for growing a section from `run` bands by one. */
  function Growth(w: Window, run: nat): nat
    requires run + 1 < RunTableSize(w)
  {
    if RunValueBits(w, run) != RunValueBits(w, run + 1) then RunBits(w) else 0
  }

  /** The charge for opening a section. */
  function Opening(w: Window): nat {
    RunBits(w) + 4
  }

  type BandType = b: nat | b < 16

  /** Trellis index to codebook: the reserved codebook 12 is skipped. */
  function OutMap(cb: nat): (b: BandType)
    requires cb < CODEBOOKS
    ensures b != 12
  {
    if cb < 12 then cb else cb + 1
  }

  function InMap(b: BandType): (cb: nat)
    ensures cb < CODEBOOKS
    ensures b != 12 ==> OutMap(cb) == b
  {
    if b < 12 then b else if b == 12 then 0 else b - 1
  }

  /** A scalefactor band: whether it is all zero, the codebook chosen so far, and the bits its
      coefficients take with each trellis index, summed over the window group. */
  datatype Band = Band(zero: bool, bandType: BandType, bits: seq<nat>)

  predicate Sized(bands: seq<Band>) {
    forall i :: 0 <= i < |bands| ==> |bands[i].bits| == CODEBOOKS
  }

  /** A zero band takes codebook 0. Any other band takes the chosen codebook or a larger one, and
      one of the special codebooks only if it is the chosen one. */
  predicate Allowed(b: Band, cb: nat) {
    && cb < CODEBOOKS
    && if b.zero then cb == 0
       else InMap(b.bandType) <= cb && (cb >= 12 ==> b.bandType == OutMap(cb))
  }

  function BandBits(b: Band, cb: nat): nat
    requires |b.bits| == CODEBOOKS && cb < CODEBOOKS
  {
    if b.zero then 0 else b.bits[cb]
  }

  /** No band is without a codebook: the least one it may use. */
  function LeastAllowed(b: Band): (cb: nat)
    ensures Allowed(b, cb)
    ensures forall k :: 0 <= k < cb ==> !Allowed(b, k)
  {
    if b.zero then 0 else InMap(b.bandType)
  }

  // ------------------------------------------------------------------ the forward pass

  datatype Cell = Cell(prev: int, cost: nat, run: nat)

  /** The cheapest cell of a row, if a row has been computed: the cost starts out infinite. */
  datatype Best = Infinite | Best(bits: nat, cb: nat)

  datatype Row = Row(cells: seq<Cell>, best: Best)

  const CLOSED: Cell := Cell(-1, SENTINEL, 0)

  function FirstRow(w: Window): (r: Row)
    ensures |r.cells| == CODEBOOKS
  {
    Row(seq(CODEBOOKS, _ => Cell(-1, Opening(w), 0)), Infinite)
  }

  /** Staying in the section costs the band's bits and any growth of the length field; coming from
      the cheapest cell costs the bits and a new section. Staying wins a tie. */
  function NextCell(w: Window, stay: Cell, best: Best, bits: nat, cb: nat): Cell
    requires stay.run + 1 < RunTableSize(w)
  {
    var costStay := stay.cost + bits + Growth(w, stay.run);
    if best.Best? && best.bits + bits + Opening(w) < costStay
    then Cell(best.cb, best.bits + bits + Opening(w), 1)
    else Cell(cb, costStay, stay.run + 1)
  }

  function NextCellOf(w: Window, row: Row, b: Band, cb: nat): Cell
    requires |row.cells| == CODEBOOKS && |b.bits| == CODEBOOKS && cb < CODEBOOKS
    requires row.cells[cb].run + 1 < RunTableSize(w)
  {
    if Allowed(b, cb) then NextCell(w, row.cells[cb], row.best, BandBits(b, cb), cb) else CLOSED
  }

  /** The first of the cheapest open cells among the first n. */
  function BestOf(cells: seq<Cell>, b: Band, n: nat): (r: Best)
    requires |cells| == CODEBOOKS && n <= CODEBOOKS
    ensures r.Best? ==> r.cb < n && Allowed(b, r.cb) && r.bits == cells[r.cb].cost
    ensures r.Best? ==> forall k :: 0 <= k < n && Allowed(b, k) ==>
      r.bits <= cells[k].cost && (k < r.cb ==> r.bits < cells[k].cost)
    ensures r.Infinite? ==> forall k :: 0 <= k < n ==> !Allowed(b, k)
  {
    if n == 0 then Infinite
    else
      var r := BestOf(cells, b, n - 1);
      if Allowed(b, n - 1) && (r.Infinite? || cells[n - 1].cost < r.bits) then Best(cells[n - 1].cost, n - 1) else r
  }

  predicate RunsBelow(cells: seq<Cell>, n: nat) {
    |cells| == CODEBOOKS && forall cb :: 0 <= cb < CODEBOOKS ==> cells[cb].run <= n
  }

  function NextRow(w: Window, row: Row, b: Band, n: nat): (r: Row)
    requires |b.bits| == CODEBOOKS && n + 1 < RunTableSize(w) && RunsBelow(row.cells, n)
    ensures RunsBelow(r.cells, n + 1)
    ensures forall cb :: 0 <= cb < CODEBOOKS ==> r.cells[cb] == NextCellOf(w, row, b, cb)
  {
    var cells := seq(CODEBOOKS, cb requires 0 <= cb < CODEBOOKS => NextCellOf(w, row, b, cb));
    Row(cells, BestOf(cells, b, CODEBOOKS))
  }

  predicate Fits(w: Window, bands: seq<Band>) {
    Sized(bands) && |bands| < RunTableSize(w)
  }

  /** Row n of the table: the state after n bands. */
  function RowAt(w: Window, bands: seq<Band>, n: nat): (r: Row)
    requires Fits(w, bands) && n <= |bands|
    ensures RunsBelow(r.cells, n)
  {
    if n == 0 then FirstRow(w) else NextRow(w, RowAt(w, bands, n - 1), bands[n - 1], n - 1)
  }

  function CellAt(w: Window, bands: seq<Band>, n: nat, cb: nat): Cell
    requires Fits(w, bands) && n <= |bands| && cb < CODEBOOKS
  {
    RowAt(w, bands, n).cells[cb]
  }

  /** The cheapest open cell of row n; it exists in every row but the first. */
  function BestAt(w: Window, bands: seq<Band>, n: nat): (r: Best)
    requires Fits(w, bands) && n <= |bands|
    ensures n > 0 ==> r.Best? && Allowed(bands[n - 1], r.cb) && r.bits == CellAt(w, bands, n, r.cb).cost
    ensures n > 0 ==> forall k :: Allowed(bands[n - 1], k) ==> r.bits <= CellAt(w, bands, n, k).cost
  {
    assert n > 0 ==> Allowed(bands[n - 1], LeastAllowed(bands[n - 1]));
    RowAt(w, bands, n).best
  }

  // ------------------------------------------------------------------ what an assignment costs

  /** One trellis index per band, each allowed for its band. */
  predicate Admissible(bands: seq<Band>, asg: seq<nat>) {
    |asg| <= |bands| && forall i :: 0 <= i < |asg| ==> Allowed(bands[i], asg[i])
  }

  /** Length of the last section of an assignment. */
  function LastRun(asg: seq<nat>): (r: nat)
    ensures r <= |asg| && (r == 0 <==> asg == [])
  {
    var n := |asg|;
    if n == 0 then 0
    else if n == 1 || asg[n - 1] != asg[n - 2] then 1
    else 1 + LastRun(asg[..n - 1])
  }

  /** The encoder's own charge: bits of the bands, each section's opening, and each growth of a
      section's length field as its table has it. */
  function Charge(w: Window, bands: seq<Band>, asg: seq<nat>): nat
    requires Fits(w, bands) && Admissible(bands, asg)
  {
    var n := |asg|;
    if n == 0 then 0
    else
      Charge(w, bands, asg[..n - 1]) + BandBits(bands[n - 1], asg[n - 1])
      + if LastRun(asg) == 1 then Opening(w) else Growth(w, LastRun(asg) - 1)
  }

  lemma ChargeSnoc(w: Window, bands: seq<Band>, asg: seq<nat>, cb: nat)
    requires Fits(w, bands) && Admissible(bands, asg) && |asg| < |bands| && Allowed(bands[|asg|], cb)
    ensures Admissible(bands, asg + [cb])
    ensures LastRun(asg + [cb]) == if asg != [] && asg[|asg| - 1] == cb then LastRun(asg) + 1 else 1
    ensures Charge(w, bands, asg + [cb]) ==
      Charge(w, bands, asg) + BandBits(bands[|asg|], cb)
      + if asg != [] && asg[|asg| - 1] == cb then Growth(w, LastRun(asg)) else Opening(w)
  {
    assert (asg + [cb])[..|asg|] == asg;
  }

  /** The charge when no length field ever grows: a flat price per section. */
  function FlatCharge(w: Window, bands: seq<Band>, asg: seq<nat>): nat
    requires Fits(w, bands) && Admissible(bands, asg)
  {
    var n := |asg|;
    if n == 0 then 0
    else
      FlatCharge(w, bands, asg[..n - 1]) + BandBits(bands[n - 1], asg[n - 1])
      + if n == 1 || asg[n - 1] != asg[n - 2] then Opening(w) else 0
  }

  /** Below the escape length no section ever outgrows its field, so both charges agree. */
  lemma {:induction false} ShortRunsAreFlat(w: Window, bands: seq<Band>, asg: seq<nat>)
    requires Fits(w, bands) && Admissible(bands, asg) && |asg| < RunEsc(w)
    ensures Charge(w, bands, asg) == FlatCharge(w, bands, asg)
  {
    if |asg| > 0 {
      ShortRunsAreFlat(w, bands, asg[..|asg| - 1]);
    }
  }

  // ------------------------------------------------------------------ cells are worth their price

  /** The assignment a cell stands for, read band by band. */
  function Trace(w: Window, bands: seq<Band>, n: nat, cb: nat): (asg: seq<nat>)
    requires Fits(w, bands) && n <= |bands| && cb < CODEBOOKS
    ensures |asg| == n && (n > 0 ==> asg[n - 1] == cb)
    decreases n
  {
    if n == 0 then []
    else
      var prev := CellAt(w, bands, n, cb).prev;
      Trace(w, bands, n - 1, if 0 <= prev < CODEBOOKS then prev else cb) + [cb]
  }

  /** A cell opens a section exactly when it comes from another codebook, and then it comes from the
      cheapest cell of the row before. */
  lemma CellShape(w: Window, bands: seq<Band>, n: nat, cb: nat)
    requires Fits(w, bands) && 1 < n <= |bands| && Allowed(bands[n - 1], cb)
    ensures var c, d, best := CellAt(w, bands, n, cb), CellAt(w, bands, n - 1, cb), BestAt(w, bands, n - 1);
            var bits := BandBits(bands[n - 1], cb);
            if d.cost + Growth(w, d.run) <= best.bits + Opening(w)
            then c == Cell(cb, d.cost + bits + Growth(w, d.run), d.run + 1)
            else c == Cell(best.cb, best.bits + bits + Opening(w), 1) && best.cb != cb
  {
    assert RowAt(w, bands, n).cells[cb] == NextCellOf(w, RowAt(w, bands, n - 1), bands[n - 1], cb);
  }

  lemma FirstCellShape(w: Window, bands: seq<Band>, cb: nat)
    requires Fits(w, bands) && 1 <= |bands| && Allowed(bands[0], cb)
    ensures CellAt(w, bands, 1, cb) == Cell(cb, Opening(w) + BandBits(bands[0], cb), 1)
  {
    assert RowAt(w, bands, 1).cells[cb] == NextCellOf(w, RowAt(w, bands, 0), bands[0], cb);
  }

  /** The same facts about the cell before: which one it is, and what was added to it. Only by staying
      can a section come from a closed cell. */
  lemma CellFrom(w: Window, bands: seq<Band>, n: nat, cb: nat) returns (prev: nat)
    requires Fits(w, bands) && 1 < n <= |bands| && Allowed(bands[n - 1], cb)
    ensures prev < CODEBOOKS && (prev == cb || Allowed(bands[n - 2], prev))
    ensures var c, d := CellAt(w, bands, n, cb), CellAt(w, bands, n - 1, prev);
            && c.prev == prev
            && c.cost == d.cost + BandBits(bands[n - 1], cb) + (if prev == cb then Growth(w, d.run) else Opening(w))
            && c.run == if prev == cb then d.run + 1 else 1
  {
    CellShape(w, bands, n, cb);
    prev := CellAt(w, bands, n, cb).prev;
  }

  /** The cell holds exactly what the assignment is charged, and the length of its last section. */
  predicate Priced(w: Window, bands: seq<Band>, c: Cell, asg: seq<nat>)
    requires Fits(w, bands)
  {
    Admissible(bands, asg) && c.cost == Charge(w, bands, asg) && c.run == LastRun(asg)
  }

  lemma PricedStep(w: Window, bands: seq<Band>, d: Cell, c: Cell, asg: seq<nat>, cb: nat)
    requires Fits(w, bands) && Priced(w, bands, d, asg) && 0 < |asg| < |bands| && Allowed(bands[|asg|], cb)
    requires c.cost == d.cost + BandBits(bands[|asg|], cb)
                       + if asg[|asg| - 1] == cb then Growth(w, d.run) else Opening(w)
    requires c.run == if asg[|asg| - 1] == cb then d.run + 1 else 1
    ensures Priced(w, bands, c, asg + [cb])
  {
  }

  lemma TraceStep(w: Window, bands: seq<Band>, n: nat, cb: nat, prev: nat)
    requires Fits(w, bands) && 0 < n <= |bands| && cb < CODEBOOKS && prev < CODEBOOKS
    requires CellAt(w, bands, n, cb).prev == prev
    ensures Trace(w, bands, n, cb) == Trace(w, bands, n - 1, prev) + [cb]
  {
  }

  lemma FirstIsPriced(w: Window, bands: seq<Band>, cb: nat)
    requires Fits(w, bands) && 0 < |bands| && Allowed(bands[0], cb)
    ensures Priced(w, bands, CellAt(w, bands, 1, cb), Trace(w, bands, 1, cb))
  {
    FirstCellShape(w, bands, cb);
    TraceStep(w, bands, 1, cb, cb);
    ChargeSnoc(w, bands, [], cb);
    hide RowAt, Trace;
  }

  lemma PrefixAdmissible(bands: seq<Band>, asg: seq<nat>, cb: nat)
    requires Admissible(bands, asg + [cb])
    ensures Admissible(bands, asg) && Allowed(bands[|asg|], cb)
  {
    assert forall i :: 0 <= i < |asg| ==> (asg + [cb])[i] == asg[i];
    assert (asg + [cb])[|asg|] == cb;
  }

  /** A cell that stands for an admissible assignment is priced exactly as that. */
  lemma {:induction false} CellIsPriced(w: Window, bands: seq<Band>, n: nat, cb: nat)
    requires Fits(w, bands) && 0 < n <= |bands| && cb < CODEBOOKS && Admissible(bands, Trace(w, bands, n, cb))
    ensures Priced(w, bands, CellAt(w, bands, n, cb), Trace(w, bands, n, cb))
    decreases n
  {
    hide RowAt, Trace, Charge, LastRun, Priced;
    assert Trace(w, bands, n, cb)[n - 1] == cb;
    if n == 1 {
      FirstIsPriced(w, bands, cb);
    } else {
      var prev := CellFrom(w, bands, n, cb);
      TraceStep(w, bands, n, cb, prev);
      PrefixAdmissible(bands, Trace(w, bands, n - 1, prev), cb);
      CellIsPriced(w, bands, n - 1, prev);
      PricedStep(w, bands, CellAt(w, bands, n - 1, prev), CellAt(w, bands, n, cb), Trace(w, bands, n - 1, prev), cb);
    }
  }

  // ------------------------------------------------------------------ below the sentinel

  /** An open cell cheaper than the sentinel does not come from a closed one. */
  lemma CheapFrom(w: Window, bands: seq<Band>, n: nat, cb: nat) returns (prev: nat)
    requires Fits(w, bands) && 1 < n <= |bands| && Allowed(bands[n - 1], cb) && CellAt(w, bands, n, cb).cost < SENTINEL
    ensures Allowed(bands[n - 2], prev) && CellAt(w, bands, n, cb).prev == prev
    ensures CellAt(w, bands, n - 1, prev).cost < SENTINEL
  {
    prev := CellFrom(w, bands, n, cb);
  }

  /** So it stands for an admissible assignment. */
  lemma {:induction false} CheapIsAdmissible(w: Window, bands: seq<Band>, n: nat, cb: nat)
    requires Fits(w, bands) && 0 < n <= |bands| && Allowed(bands[n - 1], cb) && CellAt(w, bands, n, cb).cost < SENTINEL
    ensures Admissible(bands, Trace(w, bands, n, cb))
    decreases n
  {
    hide RowAt, Trace;
    if n == 1 {
      FirstCellShape(w, bands, cb);
      TraceStep(w, bands, 1, cb, cb);
    } else {
      var prev := CheapFrom(w, bands, n, cb);
      CheapIsAdmissible(w, bands, n - 1, prev);
      TraceStep(w, bands, n, cb, prev);
    }
  }

  // ------------------------------------------------------------------ the final choice

  /** The index the encoder ends up with: it starts at 0 and moves to any strictly cheaper cell. */
  function FinalIndex(cells: seq<Cell>, n: nat): (idx: nat)
    requires |cells| == CODEBOOKS && 0 < n <= CODEBOOKS
    ensures idx < n
    ensures forall k :: 0 <= k < n ==> cells[idx].cost <= cells[k].cost && (k < idx ==> cells[idx].cost < cells[k].cost)
  {
    if n == 1 then 0
    else
      var idx := FinalIndex(cells, n - 1);
      if cells[n - 1].cost < cells[idx].cost then n - 1 else idx
  }

  /** The assignment the encoder selects. */
  function Chosen(w: Window, bands: seq<Band>): (asg: seq<nat>)
    requires Fits(w, bands)
    ensures |asg| == |bands|
  {
    Trace(w, bands, |bands|, FinalIndex(RowAt(w, bands, |bands|).cells, CODEBOOKS))
  }

  /** Every band is given a codebook it may use. */
  predicate Selects(w: Window, bands: seq<Band>)
    requires Fits(w, bands)
  {
    Admissible(bands, Chosen(w, bands))
  }

  lemma FinalIsBest(w: Window, bands: seq<Band>)
    requires Fits(w, bands) && |bands| > 0
    requires Allowed(bands[|bands| - 1], FinalIndex(RowAt(w, bands, |bands|).cells, CODEBOOKS))
    ensures FinalIndex(RowAt(w, bands, |bands|).cells, CODEBOOKS) == BestAt(w, bands, |bands|).cb
  {
  }

  /** The selected assignment, where it is one, costs what the cheapest cell holds. */
  lemma ChosenCharge(w: Window, bands: seq<Band>)
    requires Fits(w, bands) && Selects(w, bands) && |bands| > 0
    ensures Charge(w, bands, Chosen(w, bands)) == BestAt(w, bands, |bands|).bits
  {
    hide RowAt, Trace;
    var idx := FinalIndex(RowAt(w, bands, |bands|).cells, CODEBOOKS);
    assert Allowed(bands[|bands| - 1], Trace(w, bands, |bands|, idx)[|bands| - 1]);
    FinalIsBest(w, bands);
    CellIsPriced(w, bands, |bands|, idx);
  }

  /** The last row decides: below the sentinel there is a selection. */
  lemma BelowSelects(w: Window, bands: seq<Band>)
    requires Fits(w, bands) && |bands| > 0 && BestAt(w, bands, |bands|).bits < SENTINEL
    ensures Selects(w, bands)
  {
    var n := |bands|;
    var idx, best := FinalIndex(RowAt(w, bands, n).cells, CODEBOOKS), BestAt(w, bands, n);
    assert CellAt(w, bands, n, idx).cost <= CellAt(w, bands, n, best.cb).cost;
    CheapIsAdmissible(w, bands, n, idx);
  }

  /** Below the escape length a row's cell costs at most either way of getting there. */
  lemma CellAtMost(w: Window, bands: seq<Band>, n: nat, cb: nat)
    requires Fits(w, bands) && 0 < n <= |bands| && n < RunEsc(w) && Allowed(bands[n - 1], cb)
    ensures CellAt(w, bands, n, cb).cost <= CellAt(w, bands, n - 1, cb).cost + BandBits(bands[n - 1], cb)
    ensures n > 1 ==>
      CellAt(w, bands, n, cb).cost <= BestAt(w, bands, n - 1).bits + BandBits(bands[n - 1], cb) + Opening(w)
  {
    assert RowAt(w, bands, n).cells[cb] == NextCellOf(w, RowAt(w, bands, n - 1), bands[n - 1], cb);
  }

  /** Below the escape length no admissible assignment undercuts a cell that ends like it. */
  lemma {:induction false} CellsAreLeast(w: Window, bands: seq<Band>, asg: seq<nat>)
    requires Fits(w, bands) && Admissible(bands, asg) && 0 < |asg| < RunEsc(w)
    ensures CellAt(w, bands, |asg|, asg[|asg| - 1]).cost <= FlatCharge(w, bands, asg)
    ensures BestAt(w, bands, |asg|).bits <= FlatCharge(w, bands, asg)
    decreases |asg|
  {
    var n := |asg|;
    var cb := asg[n - 1];
    CellAtMost(w, bands, n, cb);
    if n > 1 {
      CellsAreLeast(w, bands, asg[..n - 1]);
    } else {
      assert CellAt(w, bands, 0, cb).cost == Opening(w);
      assert asg[..0] == [];
    }
    hide RowAt, Allowed;
  }

  /** Optimality: with fewer bands than the escape length the selected codebooks, where they are
      admissible, cost no more than any other admissible choice, counting band bits and a fixed price per
      section. */
  lemma ChosenIsOptimal(w: Window, bands: seq<Band>, other: seq<nat>)
    requires Fits(w, bands) && 0 < |bands| < RunEsc(w) && Selects(w, bands)
    requires Admissible(bands, other) && |other| == |bands|
    ensures FlatCharge(w, bands, Chosen(w, bands)) <= FlatCharge(w, bands, other)
  {
    ChosenCharge(w, bands);
    ShortRunsAreFlat(w, bands, Chosen(w, bands));
    CellsAreLeast(w, bands, other);
  }
}
