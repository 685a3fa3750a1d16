/** The hundred slots that collect the pieces of frames. */
module FrameSlots {

  import opened Bytes
  import opened FrameMap

  /** A slot keeps its memory after its frame is done; `size` says how much of it counts. Identifier 0
      marks a slot without a frame. */
  datatype Slot = Slot(id: int, size: nat, data: seq<byte>)

  predicate SlotSane(s: Slot) {
    s.size <= |s.data| && s.size + PADDING <= UINT_MAX
  }

  function Contents(s: Slot): seq<byte>
    requires SlotSane(s)
  {
    s.data[..s.size]
  }

  /** The first slot with the identifier, or the number of slots. */
  function FirstWith(slots: seq<Slot>, id: int, from: nat := 0): (i: nat)
    requires from <= |slots|
    ensures from <= i <= |slots| && (i < |slots| ==> slots[i].id == id)
    ensures forall k :: from <= k < i ==> slots[k].id != id
    decreases |slots| - from
  {
    if from == |slots| || slots[from].id == id then from else FirstWith(slots, id, from + 1)
  }

  /** The last of the first n slots that is unused, or -1. */
  function LastFree(slots: seq<Slot>, n: nat): (i: int)
    requires n <= |slots|
    ensures -1 <= i < n && (i >= 0 ==> slots[i].size == 0)
    ensures forall k :: i < k < n ==> slots[k].size > 0
  {
    if n == 0 then -1 else if slots[n - 1].size == 0 then n - 1 else LastFree(slots, n - 1)
  }

  /** Where a piece goes; negative where the source would index in front of the array. */
  function Place(slots: seq<Slot>, id: int): (i: int)
    ensures -1 <= i < |slots|
    ensures i >= 0 ==> slots[i].id == id || slots[i].size == 0
  {
    var i := FirstWith(slots, id);
    if i < |slots| then i else LastFree(slots, |slots|)
  }

  datatype Outcome = Failed | NotPiece | NoSlot | Stored | Frame(bytes: seq<byte>)

  function Answer(e: Effect): Outcome {
    match e
    case Refused => Failed
    case Collected(_) => Stored
    case Whole(bytes) => Frame(bytes)
  }

  /** What becomes of a slot, given over to the piece's frame. */
  function Fill(s: Slot, c: Chunk): (Slot, Outcome)
    requires SlotSane(s)
  {
    match Add(Contents(s), c)
    case Refused => (s.(id := c.id), Failed)
    case Collected(bytes) => (Slot(c.id, |bytes|, bytes), Stored)
    case Whole(bytes) => (Slot(0, 0, bytes), Frame(bytes))
  }

  predicate Sane(slots: seq<Slot>) {
    |slots| == SLOTS && forall i :: 0 <= i < |slots| ==> SlotSane(slots[i])
  }

  /** One piece. */
  function Step(slots: seq<Slot>, c: Chunk): (r: (seq<Slot>, Outcome))
    requires Sane(slots)
    ensures Sane(r.0)
  {
    var i := Place(slots, c.id);
    if i < 0 then (slots, NoSlot)
    else
      var (s, r) := Fill(slots[i], c);
      (slots[i := s], r)
  }

  // ------------------------------------------------------------------ slots as a map

  /** Frames have slots of their own; and of the slots marked 0 only the first may hold anything. */
  predicate Apart(slots: seq<Slot>) {
    && (forall i, k :: 0 <= i < k < |slots| && slots[i].id == slots[k].id ==> slots[i].id == 0 && slots[k].size == 0)
  }

  predicate Held(slots: seq<Slot>, id: int) {
    exists i :: 0 <= i < |slots| && slots[i].id == id && slots[i].size > 0
  }

  /** The slots in use hold exactly the open frames. */
  predicate Holds(slots: seq<Slot>, open: map<int, seq<byte>>) {
    && Sane(slots) && Apart(slots)
    && (forall i :: 0 <= i < |slots| && slots[i].size > 0 ==>
          slots[i].id in open && open[slots[i].id] == Contents(slots[i]))
    && (forall id :: id in open ==> open[id] != [] && Held(slots, id))
  }

  function Empty(): (slots: seq<Slot>)
    ensures Sane(slots)
  {
    seq(SLOTS, _ => Slot(0, 0, []))
  }

  lemma EmptyHolds()
    ensures Holds(Empty(), map[])
  {
  }

  // ------------------------------------------------------------------ room

  /** With all these slots in use there are as many open frames. */
  lemma {:induction false} FullIsFull(slots: seq<Slot>, ids: set<int>)
    requires forall i :: 0 <= i < |slots| ==> slots[i].id in ids
    requires forall i, k :: 0 <= i < k < |slots| ==> slots[i].id != slots[k].id
    ensures |ids| >= |slots|
    decreases |slots|
  {
    if |slots| > 0 {
      var last := slots[|slots| - 1].id;
      FullIsFull(slots[..|slots| - 1], ids - {last});
    }
  }

  /** The frames that hold a slot among the first n. */
  function Ids(slots: seq<Slot>, n: nat): (ids: set<int>)
    requires n <= |slots|
    ensures forall i :: 0 <= i < n && slots[i].size > 0 ==> slots[i].id in ids
    ensures |ids| <= n
    ensures forall k :: 0 <= k < n && slots[k].size == 0 ==> |ids| < n
  {
    if n == 0 then {}
    else if slots[n - 1].size > 0 then Ids(slots, n - 1) + {slots[n - 1].id}
    else Ids(slots, n - 1)
  }

  /** Of n frames open at least one slot is unused, and conversely. */
  lemma FreeIff(slots: seq<Slot>, open: map<int, seq<byte>>)
    requires Holds(slots, open)
    ensures (exists i :: 0 <= i < |slots| && slots[i].size == 0) <==> |open| < SLOTS
  {
    assert |open.Keys| == |open|;
    if exists i :: 0 <= i < |slots| && slots[i].size == 0 {
      var ids := Ids(slots, |slots|);
      forall id | id in open
        ensures id in ids
      {
        assert Held(slots, id);
      }
      SubsetSize(open.Keys, ids);
    } else {
      FullIsFull(slots, open.Keys);
    }
  }

  lemma SubsetSize(a: set<int>, b: set<int>)
    requires a <= b
    ensures |a| <= |b|
  {
    assert b == a + (b - a);
  }

  /** A slot is found exactly when the frame is open or there is room for another. */
  lemma PlaceIff(slots: seq<Slot>, open: map<int, seq<byte>>, id: int)
    requires Holds(slots, open)
    ensures Place(slots, id) >= 0 <==> Room(open, id)
  {
    FreeIff(slots, open);
    if id in open {
      assert Held(slots, id);
    }
  }

  /** With a hundred frames open and a piece of another, the scan runs past the last slot and has seen
      no unused one. */
  lemma NoPlaceWhenFull(slots: seq<Slot>, open: map<int, seq<byte>>, id: int)
    requires Holds(slots, open) && |open| == SLOTS && id !in open
    ensures FirstWith(slots, id) == SLOTS && LastFree(slots, SLOTS) == -1
  {
    PlaceIff(slots, open, id);
  }

  // ------------------------------------------------------------------ one piece

  /** The slot found holds what is open of the frame. */
  lemma PlaceHasFrame(slots: seq<Slot>, open: map<int, seq<byte>>, id: int)
    requires Holds(slots, open) && Place(slots, id) >= 0
    ensures Contents(slots[Place(slots, id)]) == Have(open, id)
  {
    var i := Place(slots, id);
    if id in open {
      assert Held(slots, id);
      var k :| 0 <= k < |slots| && slots[k].id == id && slots[k].size > 0;
      assert FirstWith(slots, id) <= k;
      assert i == k;
    }
  }

  /** Frame 0 is being collected behind slot i. */
  predicate ZeroBehind(slots: seq<Slot>, i: nat) {
    exists z :: i < z < |slots| && slots[z].id == 0 && slots[z].size > 0
  }

  /** The piece completes a frame in a slot before the one where frame 0 is being collected: the freed
      slot is then the first marked 0, and frame 0 is out of sight. */
  predicate Buries(slots: seq<Slot>, c: Chunk)
    requires Sane(slots)
  {
    var i := Place(slots, c.id);
    i >= 0 && Fill(slots[i], c).1.Frame? && ZeroBehind(slots, i)
  }

  lemma SaneKept(slots: seq<Slot>, i: nat, s: Slot)
    requires Sane(slots) && i < |slots| && SlotSane(s)
    ensures Sane(slots[i := s])
  {
  }

  /** A slot that is the frame's own, or unused while no slot is marked with the frame. */
  predicate Takes(slots: seq<Slot>, i: nat, id: int) {
    i < |slots| && (slots[i].id == id || (slots[i].size == 0 && forall k :: 0 <= k < |slots| ==> slots[k].id != id))
    && forall k :: 0 <= k < i ==> slots[k].id != id
  }

  lemma PlaceTakes(slots: seq<Slot>, id: int)
    requires Place(slots, id) >= 0
    ensures Takes(slots, Place(slots, id), id)
  {
  }

  /** Writing the frame's slot writes the frame's entry of the map. */
  lemma EntriesKept(slots: seq<Slot>, open: map<int, seq<byte>>, i: nat, id: int, s: Slot)
    requires Holds(slots, open) && Takes(slots, i, id) && SlotSane(s) && (s.id == id || s == Slot(0, 0, s.data))
    ensures var t, m := slots[i := s], Keep(open, id, Contents(s));
            && (forall k :: 0 <= k < |t| && t[k].size > 0 ==>
                  SlotSane(t[k]) && t[k].id in m && m[t[k].id] == Contents(t[k]))
            && (forall x :: x in m ==> m[x] != [] && Held(t, x))
  {
    var t, m := slots[i := s], Keep(open, id, Contents(s));
    forall k | 0 <= k < |t| && t[k].size > 0
      ensures SlotSane(t[k]) && t[k].id in m && m[t[k].id] == Contents(t[k])
    {
      if k != i {
        assert t[k] == slots[k];
        assert slots[k].id != id;
      }
    }
    forall x | x in m
      ensures m[x] != [] && Held(t, x)
    {
      if x == id {
        assert t[i].id == x && t[i].size > 0;
      } else {
        assert Held(slots, x);
        var k :| 0 <= k < |slots| && slots[k].id == x && slots[k].size > 0;
        assert t[k] == slots[k];
      }
    }
  }

  /** Slots stay apart exactly when no slot before that of frame 0 is freed. */
  lemma ApartIff(slots: seq<Slot>, i: nat, id: int, s: Slot)
    requires Apart(slots) && Takes(slots, i, id) && (s.id == id || (s.id == 0 && s.size == 0))
    ensures Apart(slots[i := s]) <==> !(s.id == 0 && ZeroBehind(slots, i))
    ensures id == 0 ==> !ZeroBehind(slots, i)
  {
    var t := slots[i := s];
    if s.id == 0 {
      if z :| i < z < |slots| && slots[z].id == 0 && slots[z].size > 0 {
        assert t[i].id == t[z].id && t[z].size > 0;
      }
    }
  }

  /** One piece on the slots is that piece on the map: the answer is the frame's; and the slots go on
      holding the map exactly when frame 0 is not buried. */
  lemma StepRefinesIff(slots: seq<Slot>, open: map<int, seq<byte>>, c: Chunk)
    requires Holds(slots, open) && Room(open, c.id)
    ensures Step(slots, c).1 == Answer(Add(Have(open, c.id), c))
    ensures Holds(Step(slots, c).0, Put(open, c)) <==> !Buries(slots, c)
  {
    hide Keep, Put, Place, Takes, Held, Contents, Have, Apart, Room, SlotSane;
    PlaceIff(slots, open, c.id);
    PlaceHasFrame(slots, open, c.id);
    PlaceTakes(slots, c.id);
    var i: nat := Place(slots, c.id);
    var s := Fill(slots[i], c).0;
    FillKeeps(slots, open, c, i);
    EntriesKept(slots, open, i, c.id, s);
    ApartIff(slots, i, c.id, s);
    SaneKept(slots, i, s);
  }

  lemma FillKeeps(slots: seq<Slot>, open: map<int, seq<byte>>, c: Chunk, i: nat)
    requires Holds(slots, open) && i < |slots| && Contents(slots[i]) == Have(open, c.id)
    ensures var s := Fill(slots[i], c).0; SlotSane(s) && Put(open, c) == Keep(open, c.id, Contents(s))
    ensures Fill(slots[i], c).1 == Answer(Add(Have(open, c.id), c))
    ensures Fill(slots[i], c).0.id == if Fill(slots[i], c).1.Frame? then 0 else c.id
  {
    assert c.id in open ==> open[c.id := open[c.id]] == open;
    assert c.id !in open ==> open - {c.id} == open;
    var s := Fill(slots[i], c).0;
    match Add(Have(open, c.id), c)
    case Refused => assert Contents(s) == Have(open, c.id);
    case Collected(bytes) => assert Contents(s) == bytes;
    case Whole(_) => assert Contents(s) == [];
  }

  /** Without room nothing happens to the slots. */
  lemma NoRoomNoStep(slots: seq<Slot>, open: map<int, seq<byte>>, c: Chunk)
    requires Holds(slots, open)
    ensures Step(slots, c).1.NoSlot? <==> !Room(open, c.id)
    ensures Step(slots, c).1.NoSlot? ==> Step(slots, c).0 == slots
  {
    PlaceIff(slots, open, c.id);
  }
}
