/** The codebook selector as the encoder runs it: one pass forward over a table of cells, a backtrace
    that jumps a run at a time, and the section writer that updates the band arrays. */
module TrellisSelector {
  import opened BitStrings
  import opened Trellis
  import opened TrellisSections

  const MAX_BANDS: nat := 120

  /** The encoder's output stream. */
  class PutBitContext {
    var bits: Word

    constructor ()
      ensures bits == []
    {
      bits := [];
    }

    method PutBits(n: nat, value: nat)
      modifies this
      ensures bits == old(bits) + Bits(value, n)
    {
      bits := bits + Bits(value, n);
    }
  }

  // ------------------------------------------------------------------ forward

  /** The first m cells of row p. */
  ghost predicate RowHolds(path: array2<Cell>, p: nat, cells: seq<Cell>, m: nat)
    reads path
  {
    && path.Length0 == MAX_BANDS && path.Length1 == CODEBOOKS && p < MAX_BANDS
    && m <= |cells| == CODEBOOKS
    && forall cb :: 0 <= cb < m ==> path[p, cb] == cells[cb]
  }

  /** The table's first rows. */
  ghost predicate TableHolds(path: array2<Cell>, rows: seq<seq<Cell>>)
    reads path
  {
    && path.Length0 == MAX_BANDS && path.Length1 == CODEBOOKS && |rows| <= MAX_BANDS
    && forall p: nat :: p < |rows| ==> RowHolds(path, p, rows[p], CODEBOOKS)
  }

  ghost function Rows(w: Window, bands: seq<Band>, n: nat): (rows: seq<seq<Cell>>)
    requires Fits(w, bands) && n <= |bands|
    ensures |rows| == n + 1 && forall p :: 0 <= p <= n ==> rows[p] == RowAt(w, bands, p).cells
  {
    seq(n + 1, p requires 0 <= p <= n => RowAt(w, bands, p).cells)
  }

  /** Rows 0..n of the table are computed. */
  ghost predicate Computed(path: array2<Cell>, w: Window, bands: seq<Band>, n: nat)
    reads path
  {
    Fits(w, bands) && n <= |bands| < MAX_BANDS && TableHolds(path, Rows(w, bands, n))
  }

  lemma ReadCell(path: array2<Cell>, w: Window, bands: seq<Band>, n: nat, cb: nat)
    requires Computed(path, w, bands, |bands|) && n <= |bands| && cb < CODEBOOKS
    ensures n < path.Length0 && cb < path.Length1 && path[n, cb] == CellAt(w, bands, n, cb)
  {
  }

  lemma {:induction false} BestOfZeroBand(cells: seq<Cell>, b: Band, n: nat)
    requires |cells| == CODEBOOKS && 0 < n <= CODEBOOKS && b.zero
    ensures BestOf(cells, b, n) == Best(cells[0].cost, 0)
  {
    if n > 1 {
      BestOfZeroBand(cells, b, n - 1);
    }
  }

  /** A zero band: only codebook 0 goes on, every other cell is closed. */
  method FillZeroBand(path: array2<Cell>, w: Window, b: Band, swb: nat, next: Best, ghost row: Row)
    returns (next': Best)
    requires |b.bits| == CODEBOOKS && b.zero && RunsBelow(row.cells, swb) && swb + 1 < RunTableSize(w)
    requires RowHolds(path, swb, row.cells, CODEBOOKS) && swb + 1 < MAX_BANDS && next == row.best
    modifies path
    ensures RowHolds(path, swb + 1, NextRow(w, row, b, swb).cells, CODEBOOKS)
    ensures next' == NextRow(w, row, b, swb).best
    ensures forall p, cb :: 0 <= p <= swb && 0 <= cb < CODEBOOKS ==> path[p, cb] == old(path[p, cb])
  {
    ghost var cells := NextRow(w, row, b, swb).cells;
    BestOfZeroBand(cells, b, CODEBOOKS);
    var cell := StayOrCome(w, path[swb, 0], next, 0, 0);
    path[swb + 1, 0] := cell;
    next' := Best(cell.cost, 0);
    for cb := 1 to CODEBOOKS
      invariant RowHolds(path, swb + 1, cells, cb)
      invariant forall p, k :: 0 <= p <= swb && 0 <= k < CODEBOOKS ==> path[p, k] == old(path[p, k])
    {
      path[swb + 1, cb] := CLOSED;
    }
  }

  /** Codebooks below the chosen one are closed. */
  method CloseBelow(path: array2<Cell>, w: Window, b: Band, swb: nat, startcb: nat, ghost row: Row)
    requires |b.bits| == CODEBOOKS && !b.zero && RunsBelow(row.cells, swb) && swb + 1 < RunTableSize(w)
    requires RowHolds(path, swb, row.cells, CODEBOOKS) && swb + 1 < MAX_BANDS && startcb == InMap(b.bandType)
    modifies path
    ensures RowHolds(path, swb + 1, NextRow(w, row, b, swb).cells, startcb)
    ensures BestOf(NextRow(w, row, b, swb).cells, b, startcb) == Infinite
    ensures forall p, k :: 0 <= p <= swb && 0 <= k < CODEBOOKS ==> path[p, k] == old(path[p, k])
  {
    ghost var cells := NextRow(w, row, b, swb).cells;
    hide NextRow;
    for cb := 0 to startcb
      invariant RowHolds(path, swb + 1, cells, cb)
      invariant BestOf(cells, b, cb) == Infinite
      invariant forall p, k :: 0 <= p <= swb && 0 <= k < CODEBOOKS ==> path[p, k] == old(path[p, k])
    {
      path[swb + 1, cb] := CLOSED;
    }
  }

  /** The body of the inner loop: a foreign special codebook is closed, any other stays or comes, and
      the cheapest open cell so far is kept. */
  method FillCell(path: array2<Cell>, w: Window, b: Band, swb: nat, cb: nat, next: Best, best: Best, ghost row: Row)
    returns (best': Best)
    requires |b.bits| == CODEBOOKS && !b.zero && RunsBelow(row.cells, swb) && swb + 1 < RunTableSize(w)
    requires RowHolds(path, swb, row.cells, CODEBOOKS) && swb + 1 < MAX_BANDS && next == row.best
    requires InMap(b.bandType) <= cb < CODEBOOKS
    requires RowHolds(path, swb + 1, NextRow(w, row, b, swb).cells, cb)
    requires best == BestOf(NextRow(w, row, b, swb).cells, b, cb)
    modifies path
    ensures RowHolds(path, swb + 1, NextRow(w, row, b, swb).cells, cb + 1)
    ensures best' == BestOf(NextRow(w, row, b, swb).cells, b, cb + 1)
    ensures forall p, k :: 0 <= p <= swb && 0 <= k < CODEBOOKS ==> path[p, k] == old(path[p, k])
  {
    ghost var cells := NextRow(w, row, b, swb).cells;
    assert path[swb, cb] == row.cells[cb] && cells[cb] == NextCellOf(w, row, b, cb);
    hide NextRow, NextCellOf, Allowed;
    var cell, open := OpenCell(w, b, path[swb, cb], next, cb, row);
    path[swb + 1, cb] := cell;
    best' := if open && (best.Infinite? || cell.cost < best.bits) then Best(cell.cost, cb) else best;
  }

  method OpenCell(w: Window, b: Band, stay: Cell, next: Best, cb: nat, ghost row: Row)
    returns (cell: Cell, open: bool)
    requires |b.bits| == CODEBOOKS && !b.zero && InMap(b.bandType) <= cb < CODEBOOKS && |row.cells| == CODEBOOKS
    requires stay == row.cells[cb] && next == row.best && stay.run + 1 < RunTableSize(w)
    ensures cell == NextCellOf(w, row, b, cb) && (open <==> Allowed(b, cb))
  {
    if cb >= 12 && b.bandType != OutMap(cb) {
      return CLOSED, false;
    }
    cell := StayOrCome(w, stay, next, b.bits[cb], cb);
    open := true;
  }

  /** Any other band: codebooks below the chosen one are closed, the others computed in turn. */
  method FillBand(path: array2<Cell>, w: Window, b: Band, swb: nat, next: Best, ghost row: Row)
    returns (next': Best)
    requires |b.bits| == CODEBOOKS && !b.zero && RunsBelow(row.cells, swb) && swb + 1 < RunTableSize(w)
    requires RowHolds(path, swb, row.cells, CODEBOOKS) && swb + 1 < MAX_BANDS && next == row.best
    modifies path
    ensures RowHolds(path, swb + 1, NextRow(w, row, b, swb).cells, CODEBOOKS)
    ensures next' == NextRow(w, row, b, swb).best
    ensures forall p, cb :: 0 <= p <= swb && 0 <= cb < CODEBOOKS ==> path[p, cb] == old(path[p, cb])
  {
    ghost var cells := NextRow(w, row, b, swb).cells;
    assert NextRow(w, row, b, swb).best == BestOf(cells, b, CODEBOOKS);
    hide NextRow, BestOf;
    var cb := InMap(b.bandType);
    CloseBelow(path, w, b, swb, cb, row);
    next' := Infinite;
    while cb < CODEBOOKS
      invariant InMap(b.bandType) <= cb <= CODEBOOKS
      invariant RowHolds(path, swb + 1, cells, cb)
      invariant next' == BestOf(cells, b, cb)
      invariant forall p, k :: 0 <= p <= swb && 0 <= k < CODEBOOKS ==> path[p, k] == old(path[p, k])
    {
      next' := FillCell(path, w, b, swb, cb, next, next', row);
      cb := cb + 1;
    }
  }

  /** One cell of the inner loop. */
  method StayOrCome(w: Window, stay: Cell, next: Best, bits: nat, cb: nat) returns (cell: Cell)
    requires stay.run + 1 < RunTableSize(w)
    ensures cell == NextCell(w, stay, next, bits, cb)
  {
    var costStayHere := stay.cost + bits;
    if RunValueBits(w, stay.run) != RunValueBits(w, stay.run + 1) {
      costStayHere := costStayHere + RunBits(w);
    }
    if next.Best? && next.bits + bits + RunBits(w) + 4 < costStayHere {
      cell := Cell(next.cb, next.bits + bits + RunBits(w) + 4, 1);
    } else {
      cell := Cell(cb, costStayHere, stay.run + 1);
    }
  }

  /** Every codebook starts with the price of a first section. */
  method FillFirstRow(path: array2<Cell>, w: Window)
    requires path.Length0 == MAX_BANDS && path.Length1 == CODEBOOKS
    modifies path
    ensures RowHolds(path, 0, FirstRow(w).cells, CODEBOOKS)
  {
    for cb := 0 to CODEBOOKS
      invariant RowHolds(path, 0, FirstRow(w).cells, cb)
    {
      path[0, cb] := Cell(-1, RunBits(w) + 4, 0);
    }
  }

  method FillRow(path: array2<Cell>, w: Window, b: Band, swb: nat, next: Best, ghost row: Row,
                 ghost rows: seq<seq<Cell>>)
    returns (next': Best)
    requires |b.bits| == CODEBOOKS && RunsBelow(row.cells, swb) && swb + 1 < RunTableSize(w)
    requires |rows| == swb + 1 < MAX_BANDS && TableHolds(path, rows) && rows[swb] == row.cells && next == row.best
    modifies path
    ensures TableHolds(path, rows + [NextRow(w, row, b, swb).cells])
    ensures next' == NextRow(w, row, b, swb).best
  {
    hide NextRow;
    assert RowHolds(path, swb, rows[swb], CODEBOOKS);
    if b.zero {
      next' := FillZeroBand(path, w, b, swb, next, row);
    } else {
      next' := FillBand(path, w, b, swb, next, row);
    }
  }

  method Forward(w: Window, bands: seq<Band>) returns (path: array2<Cell>)
    requires Fits(w, bands)
    ensures Computed(path, w, bands, |bands|) && fresh(path)
  {
    path := new Cell[MAX_BANDS, CODEBOOKS]((_, _) => CLOSED);
    FillFirstRow(path, w);
    assert RowAt(w, bands, 0) == FirstRow(w);
    hide RowAt, NextRow;
    var next := Infinite;
    var swb := 0;
    ghost var row := FirstRow(w);
    ghost var rows := [row.cells];
    assert rows == Rows(w, bands, 0);
    while swb < |bands|
      invariant swb <= |bands|
      invariant row == RowAt(w, bands, swb) && rows == Rows(w, bands, swb)
      invariant TableHolds(path, rows)
      invariant next == row.best
    {
      next := FillRow(path, w, bands[swb], swb, next, row, rows);
      RowStep(w, bands, swb);
      RowsSnoc(w, bands, swb);
      row := NextRow(w, row, bands[swb], swb);
      rows := rows + [row.cells];
      swb := swb + 1;
    }
  }

  lemma RowStep(w: Window, bands: seq<Band>, n: nat)
    requires Fits(w, bands) && n < |bands|
    ensures RowAt(w, bands, n + 1) == NextRow(w, RowAt(w, bands, n), bands[n], n)
  {
  }

  lemma RowsSnoc(w: Window, bands: seq<Band>, n: nat)
    requires Fits(w, bands) && n < |bands|
    ensures Rows(w, bands, n + 1) == Rows(w, bands, n) + [RowAt(w, bands, n + 1).cells]
  {
    hide RowAt;
  }

  // ------------------------------------------------------------------ backtrace

  method FindCheapest(path: array2<Cell>, w: Window, bands: seq<Band>) returns (idx: nat)
    requires Computed(path, w, bands, |bands|)
    ensures idx < CODEBOOKS
    ensures idx == FinalIndex(RowAt(w, bands, |bands|).cells, CODEBOOKS)
  {
    ghost var row := RowAt(w, bands, |bands|).cells;
    assert RowHolds(path, |bands|, Rows(w, bands, |bands|)[|bands|], CODEBOOKS);
    idx := 0;
    for cb := 1 to CODEBOOKS
      invariant idx < cb && idx == FinalIndex(row, cb)
    {
      if path[|bands|, cb].cost < path[|bands|, idx].cost {
        idx := cb;
      }
    }
  }

  /** The stack, read from its top down. */
  function TopDown(stack: seq<Section>): (secs: seq<Section>)
    ensures |secs| == |stack| && forall t :: 0 <= t < |stack| ==> secs[|stack| - 1 - t] == stack[t]
  {
    if |stack| == 0 then [] else [stack[|stack| - 1]] + TopDown(stack[..|stack| - 1])
  }

  /** One jump from an open cell: the run to push, and the cell it was entered from. */
  method ReadRun(path: array2<Cell>, w: Window, bands: seq<Band>, ppos: nat, cb: nat)
    returns (run: nat, prev: nat)
    requires Computed(path, w, bands, |bands|) && 0 < ppos <= |bands| && Allowed(bands[ppos - 1], cb)
    ensures 0 < run <= ppos && prev < CODEBOOKS
    ensures var before, all := Trace(w, bands, ppos - run, prev), Trace(w, bands, ppos, cb);
            && (Admissible(bands, all) <==> Admissible(bands, before))
            && (Admissible(bands, all) ==> RunLengths(all) == RunLengths(before) + [Section(cb, run)])
  {
    hide RowAt, Trace, Admissible;
    ghost var l := Jump(w, bands, ppos, cb);
    ghost var all := Trace(w, bands, ppos, cb);
    LandingAdmissible(w, bands, ppos, cb, CellAt(w, bands, ppos, cb).run, all, l);
    ReadCell(path, w, bands, ppos, cb);
    ReadCell(path, w, bands, l.start + 1, cb);
    run := path[ppos, cb].run;
    prev := path[ppos - run + 1, cb].prev;
    if Admissible(bands, all) {
      CellIsPriced(w, bands, ppos, cb);
    }
  }

  /** Whether the walk can get to its end from a cell is whether it can from the last one; and if so the
      sections still to be walked and those on the stack make up the whole. */
  ghost predicate Unwound(w: Window, bands: seq<Band>, ppos: nat, idx: nat, done: seq<Section>, whole: seq<nat>)
    requires Fits(w, bands)
  {
    && ppos <= |bands| && idx < CODEBOOKS && |done| + ppos <= |bands|
    && (Admissible(bands, Trace(w, bands, ppos, idx)) <==> Admissible(bands, whole))
    && (Admissible(bands, whole) ==> RunLengths(Trace(w, bands, ppos, idx)) + done == RunLengths(whole))
  }

  lemma UnwindStart(w: Window, bands: seq<Band>, first: nat)
    requires Fits(w, bands) && first < CODEBOOKS
    ensures Unwound(w, bands, |bands|, first, [], Trace(w, bands, |bands|, first))
  {
  }

  lemma UnwindEnd(w: Window, bands: seq<Band>, idx: nat, done: seq<Section>, whole: seq<nat>)
    requires Fits(w, bands) && Unwound(w, bands, 0, idx, done, whole)
    ensures Admissible(bands, whole) && done == RunLengths(whole)
  {
  }

  /** At a closed cell the walk is stuck. */
  lemma UnwindStuck(w: Window, bands: seq<Band>, ppos: nat, idx: nat, done: seq<Section>, whole: seq<nat>)
    requires Fits(w, bands) && Unwound(w, bands, ppos, idx, done, whole)
    requires ppos > 0 && !Allowed(bands[ppos - 1], idx)
    ensures !Admissible(bands, whole)
  {
    assert Trace(w, bands, ppos, idx)[ppos - 1] == idx;
  }

  lemma UnwindStep(w: Window, bands: seq<Band>, ppos: nat, idx: nat, run: nat, prev: nat,
                   done: seq<Section>, whole: seq<nat>)
    requires Fits(w, bands) && Unwound(w, bands, ppos, idx, done, whole)
    requires 0 < run <= ppos && prev < CODEBOOKS
    requires var before, all := Trace(w, bands, ppos - run, prev), Trace(w, bands, ppos, idx);
             && (Admissible(bands, all) <==> Admissible(bands, before))
             && (Admissible(bands, all) ==> RunLengths(all) == RunLengths(before) + [Section(idx, run)])
    ensures Unwound(w, bands, ppos - run, prev, [Section(idx, run)] + done, whole)
  {
    hide Trace, RunLengths, RowAt, Admissible;
    var before := RunLengths(Trace(w, bands, ppos - run, prev));
    assert (before + [Section(idx, run)]) + done == before + ([Section(idx, run)] + done);
  }

  /** Walks back run by run; the two stacks of the encoder are one stack of sections here. An empty run
      leads the encoder to a row it has not written, or past the end of its stacks: what it does then is
      undefined, and here the walk is given up. */
  method Backtrace(path: array2<Cell>, w: Window, bands: seq<Band>, first: nat)
    returns (ok: bool, stack: seq<Section>)
    requires Computed(path, w, bands, |bands|)
    requires first == FinalIndex(RowAt(w, bands, |bands|).cells, CODEBOOKS)
    ensures ok <==> Selects(w, bands)
    ensures ok ==> TopDown(stack) == RunLengths(Chosen(w, bands))
    ensures |stack| < MAX_BANDS
  {
    hide RowAt, Trace, RunLengths, TableHolds, Unwound, Admissible;
    stack := [];
    var idx: nat, ppos: nat := first, |bands|;
    UnwindStart(w, bands, first);
    while ppos > 0
      invariant ppos <= |bands| && idx < CODEBOOKS && |stack| + ppos <= |bands|
      invariant Unwound(w, bands, ppos, idx, TopDown(stack), Chosen(w, bands))
    {
      ReadCell(path, w, bands, ppos, idx);
      ClosedCell(w, bands, ppos, idx);
      if path[ppos, idx].run == 0 {
        UnwindStuck(w, bands, ppos, idx, TopDown(stack), Chosen(w, bands));
        return false, stack;
      }
      var run, prev := ReadRun(path, w, bands, ppos, idx);
      UnwindStep(w, bands, ppos, idx, run, prev, TopDown(stack), Chosen(w, bands));
      assert (stack + [Section(idx, run)])[..|stack|] == stack;
      stack := stack + [Section(idx, run)];
      idx := prev;
      ppos := ppos - run;
    }
    UnwindEnd(w, bands, idx, TopDown(stack), Chosen(w, bands));
    ok := true;
  }

  // ------------------------------------------------------------------ writing

  /** The length fields of one section. */
  method PutRun(w: Window, run: nat, pb: PutBitContext)
    modifies pb
    ensures pb.bits == old(pb.bits) + RunField(w, run)
  {
    var count := run;
    while count >= RunEsc(w)
      invariant 0 <= count <= run
      invariant pb.bits + RunField(w, count) == old(pb.bits) + RunField(w, run)
    {
      PutEscape(pb.bits, w, count);
      pb.PutBits(RunBits(w), RunEsc(w));
      count := count - RunEsc(w);
    }
    pb.PutBits(RunBits(w), count);
  }

  lemma PutEscape(bits: Word, w: Window, count: nat)
    requires count >= RunEsc(w)
    ensures bits + RunField(w, count) == (bits + Bits(RunEsc(w), RunBits(w))) + RunField(w, count - RunEsc(w))
  {
  }

  /** The caller's band arrays: these codebooks from `base` on, and everything else as it was. */
  ghost predicate Rewritten(zeroes: array<bool>, bandType: array<BandType>, base: nat, asg: seq<nat>,
                            zeroes0: seq<bool>, bandType0: seq<BandType>)
    reads zeroes, bandType
  {
    && |zeroes0| == zeroes.Length && |bandType0| == bandType.Length
    && base + |asg| <= zeroes.Length && base + |asg| <= bandType.Length
    && (forall i :: 0 <= i < |asg| ==> asg[i] < CODEBOOKS)
    && (forall i :: 0 <= i < zeroes.Length ==>
          zeroes[i] == if base <= i < base + |asg| then OutMap(asg[i - base]) == 0 else zeroes0[i])
    && (forall i :: 0 <= i < bandType.Length ==>
          bandType[i] == if base <= i < base + |asg| then OutMap(asg[i - base]) else bandType0[i])
  }

  /** Marks `count` bands with one codebook. */
  method MarkBands(cb: nat, count: nat, zeroes: array<bool>, bandType: array<BandType>, base: nat, start: nat,
                   ghost asg: seq<nat>, ghost zeroes0: seq<bool>, ghost bandType0: seq<BandType>)
    requires cb < CODEBOOKS && start == |asg|
    requires Rewritten(zeroes, bandType, base, asg, zeroes0, bandType0)
    requires base + start + count <= zeroes.Length && base + start + count <= bandType.Length
    modifies zeroes, bandType
    ensures Rewritten(zeroes, bandType, base, asg + Repeat(cb, count), zeroes0, bandType0)
  {
    assert asg + Repeat(cb, 0) == asg;
    for j := 0 to count
      invariant Rewritten(zeroes, bandType, base, asg + Repeat(cb, j), zeroes0, bandType0)
    {
      zeroes[base + start + j] := OutMap(cb) == 0;
      bandType[base + start + j] := OutMap(cb);
      assert asg + Repeat(cb, j + 1) == (asg + Repeat(cb, j)) + [cb];
    }
  }

  /** These sections are written; `limit` bands are there to be written. */
  ghost predicate Written(w: Window, zeroes: array<bool>, bandType: array<BandType>, base: nat, pb: PutBitContext,
                          done: seq<Section>, limit: nat, zeroes0: seq<bool>, bandType0: seq<BandType>, bits0: Word)
    reads zeroes, bandType, pb
  {
    && Proper(done) && base + limit <= zeroes.Length && base + limit <= bandType.Length
    && Rewritten(zeroes, bandType, base, Expand(done), zeroes0, bandType0)
    && pb.bits == bits0 + Write(w, done)
  }

  lemma AppendSection(w: Window, done: seq<Section>, s: Section, bits0: Word)
    requires Proper(done) && s.cb < CODEBOOKS && s.run > 0
    ensures Proper(done + [s])
    ensures Expand(done + [s]) == Expand(done) + Repeat(s.cb, s.run)
    ensures bits0 + Write(w, done + [s]) == (bits0 + Write(w, done)) + (Bits(OutMap(s.cb), 4) + RunField(w, s.run))
  {
  }

  /** One section: its codebook, its bands, its length fields. */
  method WriteSection(w: Window, s: Section, zeroes: array<bool>, bandType: array<BandType>, base: nat, start: nat,
                      pb: PutBitContext, ghost done: seq<Section>, ghost limit: nat,
                      ghost zeroes0: seq<bool>, ghost bandType0: seq<BandType>, ghost bits0: Word)
    requires s.cb < CODEBOOKS && s.run > 0 && start == |Expand(done)| && start + s.run <= limit
    requires Written(w, zeroes, bandType, base, pb, done, limit, zeroes0, bandType0, bits0)
    modifies zeroes, bandType, pb
    ensures Written(w, zeroes, bandType, base, pb, done + [s], limit, zeroes0, bandType0, bits0)
    ensures start + s.run == |Expand(done + [s])|
  {
    AppendSection(w, done, s, bits0);
    hide Expand, Write, RunField, Rewritten, Bits, OutMap, Proper;
    PutSection(w, s.cb, s.run, pb);
    MarkBands(s.cb, s.run, zeroes, bandType, base, start, Expand(done), zeroes0, bandType0);
  }

  method PutSection(w: Window, cb: nat, run: nat, pb: PutBitContext)
    requires cb < CODEBOOKS
    modifies pb
    ensures pb.bits == old(pb.bits) + (Bits(OutMap(cb), 4) + RunField(w, run))
  {
    hide RunField, Bits;
    pb.PutBits(4, OutMap(cb));
    PutRun(w, run, pb);
  }

  /** Pops one section, the k-th of the whole, and writes it. */
  method WriteTop(w: Window, s: Section, zeroes: array<bool>, bandType: array<BandType>, base: nat, start: nat,
                  pb: PutBitContext, ghost secs: seq<Section>, ghost k: nat,
                  ghost zeroes0: seq<bool>, ghost bandType0: seq<BandType>, ghost bits0: Word)
    requires k < |secs| && Proper(secs) && secs[k] == s && start == |Expand(secs[..k])|
    requires Written(w, zeroes, bandType, base, pb, secs[..k], |Expand(secs)|, zeroes0, bandType0, bits0)
    modifies zeroes, bandType, pb
    ensures start + s.run == |Expand(secs[..k + 1])|
    ensures Written(w, zeroes, bandType, base, pb, secs[..k + 1], |Expand(secs)|, zeroes0, bandType0, bits0)
  {
    NextSection(secs, k);
    hide *;
    WriteSection(w, s, zeroes, bandType, base, start, pb, secs[..k], |Expand(secs)|, zeroes0, bandType0, bits0);
  }

  /** Empties the stack: the first section is on top. */
  method WriteSections(w: Window, stack: seq<Section>, zeroes: array<bool>, bandType: array<BandType>,
                       base: nat, pb: PutBitContext, ghost secs: seq<Section>)
    requires secs == TopDown(stack) && Proper(secs)
    requires base + |Expand(secs)| <= zeroes.Length && base + |Expand(secs)| <= bandType.Length
    modifies zeroes, bandType, pb
    ensures Rewritten(zeroes, bandType, base, Expand(secs), old(zeroes[..]), old(bandType[..]))
    ensures pb.bits == old(pb.bits) + Write(w, secs)
  {
    ghost var zeroes0, bandType0, bits0 := zeroes[..], bandType[..], pb.bits;
    var start, i := 0, |stack|;
    ghost var k := 0;
    NothingWritten(w, zeroes, bandType, base, pb, secs);
    hide Expand, Write, RunField, Rewritten, Bits, OutMap, TopDown, Proper;
    while i > 0
      invariant 0 <= i <= |stack| && k == |stack| - i && start == |Expand(secs[..k])|
      invariant Written(w, zeroes, bandType, base, pb, secs[..k], |Expand(secs)|, zeroes0, bandType0, bits0)
    {
      hide Written;
      i := i - 1;
      WriteTop(w, stack[i], zeroes, bandType, base, start, pb, secs, k, zeroes0, bandType0, bits0);
      start := start + stack[i].run;
      k := k + 1;
    }
    assert secs[..k] == secs;
  }

  lemma NothingWritten(w: Window, zeroes: array<bool>, bandType: array<BandType>, base: nat, pb: PutBitContext,
                       secs: seq<Section>)
    requires base + |Expand(secs)| <= zeroes.Length && base + |Expand(secs)| <= bandType.Length
    ensures |Expand(secs[..0])| == 0
    ensures Written(w, zeroes, bandType, base, pb, secs[..0], |Expand(secs)|, zeroes[..], bandType[..], pb.bits)
  {
  }

  lemma {:induction false} ExpandPrefix(secs: seq<Section>, n: nat)
    requires n <= |secs|
    ensures |Expand(secs[..n])| <= |Expand(secs)|
    decreases |secs|
  {
    if n == |secs| {
      assert secs[..n] == secs;
    } else {
      ExpandPrefix(secs[..|secs| - 1], n);
      assert secs[..|secs| - 1][..n] == secs[..n];
    }
  }

  lemma NextSection(secs: seq<Section>, n: nat)
    requires n < |secs| && Proper(secs)
    ensures secs[n].cb < CODEBOOKS && secs[n].run > 0
    ensures secs[..n + 1] == secs[..n] + [secs[n]]
    ensures |Expand(secs[..n])| + secs[n].run <= |Expand(secs)|
  {
    assert secs[n] in secs;
    ExpandPrefix(secs, n + 1);
    assert secs[..n + 1][..n] == secs[..n];
  }

  // ------------------------------------------------------------------ the selector

  /** The bands of one window: what the caller marked as zero, the codebooks chosen so far, and the
      coefficient bits of every band with every codebook. */
  function WindowBands(zeroes: seq<bool>, bandType: seq<BandType>, base: nat, bits: seq<seq<nat>>): (bands: seq<Band>)
    requires base + |bits| <= |zeroes| && base + |bits| <= |bandType|
    ensures |bands| == |bits|
    ensures forall i :: 0 <= i < |bits| ==> bands[i] == Band(zeroes[base + i], bandType[base + i], bits[i])
  {
    seq(|bits|, i requires 0 <= i < |bits| => Band(zeroes[base + i], bandType[base + i], bits[i]))
  }

  /** Selects codebooks for a window, rewrites its bands and writes its section data. Without a selection
      the encoder's behaviour is undefined; here nothing is written then. */
  method CodebookTrellisRate(w: Window, bits: seq<seq<nat>>, zeroes: array<bool>, bandType: array<BandType>, base: nat,
                             pb: PutBitContext, bands: seq<Band>) returns (ok: bool)
    requires base + |bits| <= zeroes.Length && base + |bits| <= bandType.Length
    requires bands == WindowBands(zeroes[..], bandType[..], base, bits) && Fits(w, bands)
    modifies zeroes, bandType, pb
    ensures ok <==> Selects(w, bands)
    ensures ok ==> Rewritten(zeroes, bandType, base, Chosen(w, bands), old(zeroes[..]), old(bandType[..]))
    ensures ok ==> Proper(RunLengths(Chosen(w, bands)))
    ensures ok ==> pb.bits == old(pb.bits) + Write(w, RunLengths(Chosen(w, bands)))
    ensures !ok ==> zeroes[..] == old(zeroes[..]) && bandType[..] == old(bandType[..]) && pb.bits == old(pb.bits)
  {
    assert Fits(w, bands);
    assert |bands| < MAX_BANDS;
    hide *;
    var path := Forward(w, bands);
    var idx := FindCheapest(path, w, bands);
    var stack;
    ok, stack := Backtrace(path, w, bands, idx);
    if ok {
      ChosenSections(w, bands);
      WriteSections(w, stack, zeroes, bandType, base, pb, RunLengths(Chosen(w, bands)));
    }
  }

  lemma ChosenSections(w: Window, bands: seq<Band>)
    requires Fits(w, bands) && Selects(w, bands)
    ensures Proper(RunLengths(Chosen(w, bands))) && Expand(RunLengths(Chosen(w, bands))) == Chosen(w, bands)
    ensures forall i :: 0 <= i < |bands| ==> Chosen(w, bands)[i] < CODEBOOKS
  {
    hide RowAt, Trace, RunLengths, LastRun, Expand;
    RunLengthsProper(Chosen(w, bands));
    RunsInRange(Chosen(w, bands));
  }
}
