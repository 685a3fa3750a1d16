/** Streams of pieces on the slots, and the decoder that takes them. */
module FrameRuns {

  import opened Bytes
  import opened FrameMap
  import opened FrameSlots

  /** What is left of the slots, and the frames delivered. */
  datatype Ran = Ran(slots: seq<Slot>, delivered: seq<Delivery>)

  function Given(id: int, r: Outcome): seq<Delivery> {
    if r.Frame? then [Delivery(id, r.bytes)] else []
  }

  function Run(slots: seq<Slot>, cs: seq<Chunk>): (r: Ran)
    requires Sane(slots)
    ensures Sane(r.slots)
    decreases |cs|
  {
    if |cs| == 0 then Ran(slots, [])
    else
      var (t, r) := Step(slots, cs[0]);
      var rest := Run(t, cs[1..]);
      Ran(rest.slots, Given(cs[0].id, r) + rest.delivered)
  }

  /** Every piece finds its frame open, or fewer than `most` others. */
  predicate AllRoom(open: map<int, seq<byte>>, cs: seq<Chunk>, most: nat)
    decreases |cs|
  {
    |cs| > 0 ==> (cs[0].id in open || |open| < most) && AllRoom(Put(open, cs[0]), cs[1..], most)
  }

  predicate NeverBuried(slots: seq<Slot>, cs: seq<Chunk>)
    requires Sane(slots)
    decreases |cs|
  {
    |cs| > 0 ==> !Buries(slots, cs[0]) && NeverBuried(Step(slots, cs[0]).0, cs[1..])
  }

  /** The slots hold the map before and after every piece. */
  predicate HoldsAlong(slots: seq<Slot>, open: map<int, seq<byte>>, cs: seq<Chunk>)
    decreases |cs|
  {
    Holds(slots, open) && (|cs| > 0 ==> HoldsAlong(Step(slots, cs[0]).0, Put(open, cs[0]), cs[1..]))
  }

  /** Given room, the slots hold the map along a stream exactly when frame 0 is never buried; and then
      they deliver what the map delivers. */
  lemma {:induction false} RunRefinesIff(slots: seq<Slot>, open: map<int, seq<byte>>, cs: seq<Chunk>)
    requires Holds(slots, open) && AllRoom(open, cs, SLOTS)
    ensures HoldsAlong(slots, open, cs) <==> NeverBuried(slots, cs)
    ensures NeverBuried(slots, cs) ==>
              Run(slots, cs).delivered == Deliveries(open, cs) && Holds(Run(slots, cs).slots, Final(open, cs))
    decreases |cs|
  {
    if |cs| > 0 {
      StepRefinesIff(slots, open, cs[0]);
      StepSane(slots, open, cs[0]);
      hide Holds, Step, Put, Buries, Add, Have;
      if Holds(Step(slots, cs[0]).0, Put(open, cs[0])) {
        RunRefinesIff(Step(slots, cs[0]).0, Put(open, cs[0]), cs[1..]);
      }
    }
  }

  lemma StepSane(slots: seq<Slot>, open: map<int, seq<byte>>, c: Chunk)
    requires Holds(slots, open)
    ensures Sane(slots)
    ensures Step(slots, c).1 == Answer(Add(Have(open, c.id), c)) ==>
              Given(c.id, Step(slots, c).1) == Delivered(Have(open, c.id), c)
    ensures !Holds(Step(slots, c).0, Put(open, c)) ==> !HoldsAlong(Step(slots, c).0, Put(open, c), [])
  {
  }

  // ------------------------------------------------------------------ when frame 0 is never buried

  lemma NoZeroNoBurial(slots: seq<Slot>, open: map<int, seq<byte>>, c: Chunk)
    requires Holds(slots, open) && 0 !in open
    ensures !Buries(slots, c)
  {
  }

  /** Streams without a frame 0. */
  lemma {:induction false} NonzeroNeverBuried(slots: seq<Slot>, open: map<int, seq<byte>>, cs: seq<Chunk>)
    requires Holds(slots, open) && AllRoom(open, cs, SLOTS)
    requires 0 !in open && forall k :: 0 <= k < |cs| ==> cs[k].id != 0
    ensures NeverBuried(slots, cs)
    decreases |cs|
  {
    if |cs| > 0 {
      NoZeroNoBurial(slots, open, cs[0]);
      StepRefinesIff(slots, open, cs[0]);
      assert 0 !in Put(open, cs[0]);
      hide Holds, Step, Put, Buries;
      NonzeroNeverBuried(Step(slots, cs[0]).0, Put(open, cs[0]), cs[1..]);
    }
  }

  /** With fewer than ninety-nine other frames open the first slot is left to frame 0. */
  lemma FirstSlotStays(slots: seq<Slot>, open: map<int, seq<byte>>, c: Chunk)
    requires Holds(slots, open) && slots[0].id == 0 && (c.id in open || |open| < SLOTS - 1)
    ensures !Buries(slots, c) && Step(slots, c).0[0].id == 0
  {
    var i := Place(slots, c.id);
    assert c.id in open ==> Held(slots, c.id);
    if i == 0 && c.id != 0 {
      OthersFull(slots, open);
    }
  }

  /** When all slots but the first are in use, that many frames are open. */
  lemma OthersFull(slots: seq<Slot>, open: map<int, seq<byte>>)
    requires Holds(slots, open) && forall k :: 0 < k < |slots| ==> slots[k].size > 0
    requires slots[0].id == 0
    ensures |open| >= SLOTS - 1
  {
    var others := slots[1..];
    FullIsFull(others, open.Keys);
    assert |open.Keys| == |open|;
  }

  lemma {:induction false} RoomyNeverBuried(slots: seq<Slot>, open: map<int, seq<byte>>, cs: seq<Chunk>)
    requires Holds(slots, open) && slots[0].id == 0 && AllRoom(open, cs, SLOTS - 1)
    ensures NeverBuried(slots, cs) && AllRoom(open, cs, SLOTS)
    decreases |cs|
  {
    if |cs| > 0 {
      FirstSlotStays(slots, open, cs[0]);
      StepRefinesIff(slots, open, cs[0]);
      var t := Step(slots, cs[0]).0;
      hide Holds, Step, Put, Buries;
      RoomyNeverBuried(t, Put(open, cs[0]), cs[1..]);
    }
  }

  /** With at most a hundred frames open none of which is frame 0, or at most ninety-nine whatever their
      identifiers, the frames delivered are those of the map; empty slots are a place to start. */
  lemma RunDelivers(slots: seq<Slot>, open: map<int, seq<byte>>, cs: seq<Chunk>)
    requires Holds(slots, open)
    requires AllRoom(open, cs, SLOTS)
    requires (0 !in open && forall k :: 0 <= k < |cs| ==> cs[k].id != 0)
             || (slots[0].id == 0 && AllRoom(open, cs, SLOTS - 1))
    ensures Run(slots, cs).delivered == Deliveries(open, cs)
    ensures Holds(Run(slots, cs).slots, Final(open, cs))
  {
    hide AllRoom, NeverBuried;
    if slots[0].id == 0 && AllRoom(open, cs, SLOTS - 1) {
      RoomyNeverBuried(slots, open, cs);
    } else {
      NonzeroNeverBuried(slots, open, cs);
    }
    RunRefinesIff(slots, open, cs);
  }

  // ------------------------------------------------------------------ a frame 0 that is buried

  /** The first n frames, one byte each, from the last slot down. */
  function Filled(n: nat): (slots: seq<Slot>)
    requires n <= SLOTS
    ensures Sane(slots)
  {
    seq(SLOTS, k requires 0 <= k < SLOTS => if k >= SLOTS - n then Slot(SLOTS - k, 1, [7]) else Slot(0, 0, []))
  }

  /** A first byte of ten for each of the first n frames. */
  function Openings(n: nat): (cs: seq<Chunk>)
    ensures |cs| == n
  {
    seq(n, k requires 0 <= k < n => Chunk(k + 1, 10, [7]))
  }

  lemma FillIs(s: Slot, c: Chunk, bytes: seq<byte>)
    requires SlotSane(s) && Contents(s) + c.bytes == bytes && |bytes| < 100
    ensures Fill(s, c)
            == if |bytes| >= c.whole then (Slot(0, 0, bytes), Frame(bytes)) else (Slot(c.id, |bytes|, bytes), Stored)
  {
  }

  lemma FillOne(n: nat)
    requires n < SLOTS
    ensures Step(Filled(n), Chunk(n + 1, 10, [7])) == (Filled(n + 1), Stored)
  {
    var slots, j := Filled(n), SLOTS - n - 1;
    assert FirstWith(slots, n + 1) == SLOTS;
    assert slots[j].size == 0 && LastFree(slots, SLOTS) == j;
    FillIs(slots[j], Chunk(n + 1, 10, [7]), [7]);
    assert slots[j := Slot(n + 1, 1, [7])] == Filled(n + 1);
  }

  lemma {:induction false} RunSnoc(slots: seq<Slot>, cs: seq<Chunk>, c: Chunk)
    requires Sane(slots)
    ensures Run(slots, cs + [c]).slots == Step(Run(slots, cs).slots, c).0
    decreases |cs|
  {
    hide Step, Sane;
    if |cs| == 0 {
      assert cs + [c] == [c] && [c][1..] == [];
    } else {
      assert (cs + [c])[1..] == cs[1..] + [c];
      RunSnoc(Step(slots, cs[0]).0, cs[1..], c);
    }
  }

  lemma OpenOne(n: nat)
    ensures Openings(n + 1) == Openings(n) + [Chunk(n + 1, 10, [7])] && Openings(0) == []
  {
  }

  lemma NoneFilled()
    ensures Filled(0) == Empty()
  {
  }

  lemma {:induction false} FillAll(n: nat)
    requires n <= SLOTS
    ensures Run(Empty(), Openings(n)).slots == Filled(n)
  {
    hide Step, Filled, Empty, Openings, Sane;
    NoneFilled();
    if n == 0 {
      OpenOne(0);
    } else {
      FillAll(n - 1);
      FillOne(n - 1);
      OpenOne(n - 1);
      hide Run;
      RunSnoc(Empty(), Openings(n - 1), Chunk(n, 10, [7]));
    }
  }

  /** With all slots in use: the frame in the second slot completes, frame 0 begins there, the frame in
      the first slot completes, and frame 0 goes on in the first. */
  const DONE_SECOND: Chunk := Chunk(99, 2, [8])
  const ZERO_BEGINS: Chunk := Chunk(0, 10, [1])
  const DONE_FIRST: Chunk := Chunk(100, 2, [8])
  const ZERO_GOES_ON: Chunk := Chunk(0, 10, [2])

  lemma BurialSteps(slots: seq<Slot>)
    requires slots == Filled(SLOTS)
    ensures var s1 := slots[1 := Slot(0, 0, [7, 8])];
            var s2 := s1[1 := Slot(0, 1, [1])];
            var s3 := s2[0 := Slot(0, 0, [7, 8])];
            && Sane(s1) && Sane(s2) && Sane(s3)
            && Step(slots, DONE_SECOND).0 == s1 && Step(s1, ZERO_BEGINS).0 == s2
            && Step(s2, DONE_FIRST).0 == s3 && Step(s3, ZERO_GOES_ON).0 == s3[0 := Slot(0, 1, [2])]
            && Buries(s2, DONE_FIRST)
  {
    var s1 := slots[1 := Slot(0, 0, [7, 8])];
    var s2 := s1[1 := Slot(0, 1, [1])];
    var s3 := s2[0 := Slot(0, 0, [7, 8])];
    assert FirstWith(slots, 99) == 1 && FirstWith(s1, 0) == 1 && FirstWith(s2, 100) == 0 && FirstWith(s3, 0) == 0;
    assert [7] + [8] == [7, 8] && [] + [1] == [1] && [] + [2] == [2];
    FillIs(slots[1], DONE_SECOND, [7, 8]);
    FillIs(s1[1], ZERO_BEGINS, [1]);
    FillIs(s2[0], DONE_FIRST, [7, 8]);
    FillIs(s3[0], ZERO_GOES_ON, [2]);
    assert s2[1].id == 0 && s2[1].size > 0;
  }

  const BURIAL: seq<Chunk> := Openings(SLOTS) + [DONE_SECOND] + [ZERO_BEGINS] + [DONE_FIRST] + [ZERO_GOES_ON]

  /** The run: frame 0 ends up in two slots, and the second byte is taken for the first. */
  lemma ZeroIsBuried()
    ensures var t := Run(Empty(), BURIAL).slots;
            t[0] == Slot(0, 1, [2]) && t[1] == Slot(0, 1, [1]) && !Apart(t) && Contents(t[FirstWith(t, 0)]) == [2]
    ensures Have(Final(map[], BURIAL), 0) == [1, 2]
  {
    FillAll(SLOTS);
    BurialSteps(Filled(SLOTS));
    var cs := Openings(SLOTS);
    RunSnoc(Empty(), cs, DONE_SECOND);
    RunSnoc(Empty(), cs + [DONE_SECOND], ZERO_BEGINS);
    RunSnoc(Empty(), cs + [DONE_SECOND] + [ZERO_BEGINS], DONE_FIRST);
    RunSnoc(Empty(), cs + [DONE_SECOND] + [ZERO_BEGINS] + [DONE_FIRST], ZERO_GOES_ON);
    ZeroOnTheMap();
  }

  lemma {:induction false} OfFrameAppend(id: int, cs: seq<Chunk>, ds: seq<Chunk>)
    ensures OfFrame(id, cs + ds) == OfFrame(id, cs) + OfFrame(id, ds)
    decreases |cs|
  {
    if |cs| == 0 {
      assert cs + ds == ds;
    } else {
      assert (cs + ds)[1..] == cs[1..] + ds && (cs + ds)[0] == cs[0];
      OfFrameAppend(id, cs[1..], ds);
      var first := if cs[0].id == id then [cs[0]] else [];
      hide OfFrame;
      assert first + (OfFrame(id, cs[1..]) + OfFrame(id, ds)) == (first + OfFrame(id, cs[1..])) + OfFrame(id, ds);
    }
  }

  lemma {:induction false} NoneOfFrame(id: int, cs: seq<Chunk>)
    requires forall k :: 0 <= k < |cs| ==> cs[k].id != id
    ensures OfFrame(id, cs) == []
    decreases |cs|
  {
    if |cs| > 0 {
      NoneOfFrame(id, cs[1..]);
    }
  }

  lemma ZeroOnTheMap()
    ensures Have(Final(map[], BURIAL), 0) == [1, 2]
  {
    var cs, last := Openings(SLOTS), [DONE_SECOND, ZERO_BEGINS, DONE_FIRST, ZERO_GOES_ON];
    assert BURIAL == cs + last;
    OfFrameAppend(0, cs, last);
    NoneOfFrame(0, cs);
    assert last[1..] == [ZERO_BEGINS, DONE_FIRST, ZERO_GOES_ON];
    assert last[1..][1..] == [DONE_FIRST, ZERO_GOES_ON] && last[1..][1..][1..] == [ZERO_GOES_ON];
    assert OfFrame(0, [ZERO_GOES_ON]) == [ZERO_GOES_ON];
    assert OfFrame(0, last[1..][1..]) == [ZERO_GOES_ON];
    assert OfFrame(0, last[1..]) == [ZERO_BEGINS] + [ZERO_GOES_ON];
    assert OfFrame(0, last) == [ZERO_BEGINS, ZERO_GOES_ON];
    assert OfFrame(0, BURIAL) == [ZERO_BEGINS, ZERO_GOES_ON];
    hide OfFrame, Collect, Final;
    FramesDoNotMix(map[], BURIAL, 0);
    TwoBytes();
  }

  lemma TwoBytes()
    ensures Collect([], [ZERO_BEGINS, ZERO_GOES_ON]).rest == [1, 2]
  {
    assert [ZERO_BEGINS, ZERO_GOES_ON][1..] == [ZERO_GOES_ON] && [ZERO_GOES_ON][1..] == [];
    assert [] + [1] == [1] && [1] + [2] == [1, 2];
    assert Collect([1], [ZERO_GOES_ON]).rest == [1, 2];
  }

  // ------------------------------------------------------------------ the decoder

  class Decoder {
    const version: nat
    const cfrm: array<Slot>

    ghost predicate Valid()
      reads this, cfrm
    {
      Sane(cfrm[..])
    }

    constructor (version: nat)
      ensures Valid() && fresh(cfrm) && cfrm[..] == Empty() && Holds(cfrm[..], map[]) && this.version == version
    {
      this.version := version;
      cfrm := new Slot[SLOTS](_ => Slot(0, 0, []));
      new;
      assert cfrm[..] == Empty();
      EmptyHolds();
    }

    /** The slot with the identifier, or SLOTS, and the last unused slot before it, or -1. */
    method Scan(id: int) returns (i: nat, free: int)
      requires Valid()
      ensures i == FirstWith(cfrm[..], id) && free == LastFree(cfrm[..], i)
    {
      i, free := 0, -1;
      while i < SLOTS && cfrm[i].id != id
        invariant i <= SLOTS && (forall k :: 0 <= k < i ==> cfrm[k].id != id)
        invariant free == LastFree(cfrm[..], i)
      {
        if cfrm[i].size == 0 {
          free := i;
        }
        i := i + 1;
      }
    }

    /** Adds a piece to its frame. */
    method Receive(c: Chunk) returns (r: Outcome)
      requires Valid()
      modifies cfrm
      ensures Valid() && (cfrm[..], r) == Step(old(cfrm[..]), c)
    {
      hide FirstWith, LastFree, Apart;
      var i, free := Scan(c.id);
      if i >= SLOTS {
        if free < 0 {
          return NoSlot;
        }
        i := free;
      }
      ghost var slots, all := cfrm[..], Contents(cfrm[i]) + c.bytes;
      assert Place(slots, c.id) == i;
      cfrm[i] := cfrm[i].(id := c.id);
      var slot := cfrm[i];
      if |c.bytes| > UINT_MAX - slot.size - PADDING {
        return Failed;
      }
      cfrm[i] := slot.(data := slot.data[..slot.size] + c.bytes, size := slot.size + |c.bytes|);
      slot := cfrm[i];
      assert slot == Slot(c.id, |all|, all) && cfrm[..] == slots[i := slot];
      if slot.size >= c.whole {
        cfrm[i] := slot.(id := 0, size := 0);
        assert cfrm[..] == slots[i := Slot(0, 0, all)];
        return Frame(slot.data);
      }
      return Stored;
    }

    /** Takes a packet of the stream. */
    method DecodeFrame(buf: seq<byte>) returns (r: Outcome)
      requires Valid()
      modifies cfrm
      ensures Valid()
      ensures match Parse(version, buf)
              case Invalid => r == Failed && cfrm[..] == old(cfrm[..])
              case OtherKind => r == NotPiece && cfrm[..] == old(cfrm[..])
              case Piece(c) => (cfrm[..], r) == Step(old(cfrm[..]), c)
    {
      match Parse(version, buf)
      case Invalid => return Failed;
      case OtherKind => return NotPiece;
      case Piece(c) =>
        r := Receive(c);
    }
  }
}
