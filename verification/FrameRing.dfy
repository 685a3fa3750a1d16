/** The player's frame ring with one producer and one consumer. The indices move outside the mutex;
    only the size is changed under it. Each lock section and each unlocked access is one step. */
module FrameRing {

  /** The producer: asking for room, past the wait for it but before the second look at the abort flag,
      owning a slot, halfway through writing it, done writing, and past the index update but before the
      size update. */
  datatype ProducerPc = Asking | Waited | Claimed | Halfway | Ready | PushedIndex

  /** The consumer: looking for a frame, past the wait for one but before the second look at the abort
      flag, looking at one, releasing the slot at the read index, having released it, and past the index
      update but before the size update. */
  datatype ConsumerPc = Looking | Served | Peeking | Releasing | Released | PoppedIndex

  /** What a slot holds: a whole frame, by its number in push order, or nothing that may be read. */
  datatype Slot = Torn | Whole(frame: nat)

  /** The ring, with the abort flag of the packet queue behind it: once set it stays set while the two
      threads run. `pushed`, `written`, `popped` and `freed` count, for the model only, how often the
      size was raised, the write index moved, the read index moved, and the size was lowered. */
  datatype Ring = Ring(
    slots: seq<Slot>, windex: nat, rindex: nat, size: int, keepLast: bool, shown: int, abort: bool,
    producer: ProducerPc, consumer: ConsumerPc,
    pushed: nat, written: nat, popped: nat, freed: nat)

  datatype Action =
    | AskRoom | TakeSlot | RefuseSlot | WriteSome | WriteRest | GiveUp | MoveWindex | RaiseSize
    | LookRemaining | AskFrame | TakeFrame | RefuseFrame | PutBack | Next | Unref | MoveRindex | LowerSize
    | StopQueue

  function Create(maxSize: nat, keepLast: bool): Ring
    requires maxSize > 0
  {
    Ring(seq(maxSize, _ => Torn), 0, 0, 0, keepLast, 0, false, Asking, Looking, 0, 0, 0, 0)
  }

  function MaxSize(r: Ring): nat {
    |r.slots|
  }

  /** The slot the display reads next, and the one it keeps when it has shown a frame. */
  function PeekIndex(r: Ring): int
    requires MaxSize(r) > 0
  {
    (r.rindex + r.shown) % MaxSize(r)
  }

  function PeekNextIndex(r: Ring): int
    requires MaxSize(r) > 0
  {
    (r.rindex + r.shown + 1) % MaxSize(r)
  }

  function Remaining(r: Ring): int {
    r.size - r.shown
  }

  predicate Enabled(r: Ring, a: Action) {
    match a
    case AskRoom => r.producer.Asking? && (r.size < MaxSize(r) || r.abort)
    case TakeSlot => r.producer.Waited? && !r.abort
    case RefuseSlot => r.producer.Waited? && r.abort
    case WriteSome => r.producer.Claimed?
    case WriteRest => r.producer.Halfway?
    case GiveUp => r.producer.Claimed? || r.producer.Halfway? || r.producer.Ready?
    case MoveWindex => r.producer.Ready?
    case RaiseSize => r.producer.PushedIndex?
    case LookRemaining => r.consumer.Looking? && Remaining(r) > 0  // the display does not wait
    case AskFrame => r.consumer.Looking? && (Remaining(r) > 0 || r.abort)
    case TakeFrame => r.consumer.Served? && !r.abort
    case RefuseFrame => r.consumer.Served? && r.abort
    case PutBack => r.consumer.Peeking?
    case Next => r.consumer.Peeking?
    case Unref => r.consumer.Releasing?
    case MoveRindex => r.consumer.Released?
    case LowerSize => r.consumer.PoppedIndex?
    case StopQueue => !r.abort
  }

  /** An index moves up and wraps to 0 at the end. */
  function Bump(index: nat, maxSize: nat): nat {
    if index + 1 == maxSize then 0 else index + 1
  }

  function Do(r: Ring, a: Action): Ring
    requires Enabled(r, a) && r.windex < MaxSize(r) && r.rindex < MaxSize(r)
  {
    match a
    case AskRoom => r.(producer := Waited)
    case TakeSlot => r.(producer := Claimed)
    case RefuseSlot => r.(producer := Asking)
    case WriteSome => r.(producer := Halfway, slots := r.slots[r.windex := Torn])
    case WriteRest => r.(producer := Ready, slots := r.slots[r.windex := Whole(r.written)])
    case GiveUp => r.(producer := Asking)
    case MoveWindex => r.(producer := PushedIndex, windex := Bump(r.windex, MaxSize(r)), written := r.written + 1)
    case RaiseSize => r.(producer := Asking, size := r.size + 1, pushed := r.pushed + 1)
    case LookRemaining => r.(consumer := Peeking)
    case AskFrame => r.(consumer := Served)
    case TakeFrame => r.(consumer := Peeking)
    case RefuseFrame => r.(consumer := Looking)
    case PutBack => r.(consumer := Looking)
    case Next => if r.keepLast && r.shown == 0 then r.(consumer := Looking, shown := 1) else r.(consumer := Releasing)
    case Unref => r.(consumer := Released, slots := r.slots[r.rindex := Torn])
    case MoveRindex => r.(consumer := PoppedIndex, rindex := Bump(r.rindex, MaxSize(r)), popped := r.popped + 1)
    case LowerSize => r.(consumer := Looking, size := r.size - 1, freed := r.freed + 1)
    case StopQueue => r.(abort := true)
  }

  // ------------------------------------------------------------------ arithmetic of the ring

  lemma ModUnique(a: int, m: nat, q: int, x: int)
    requires m > 0 && 0 <= x < m && a == q * m + x
    ensures a % m == x
  {
    var d := a / m - q;
    assert a % m == x - d * m;
    assert d >= 1 ==> d * m >= m;
    assert d <= -1 ==> d * m + m <= 0;
  }

  lemma BumpIsMod(k: nat, m: nat)
    requires m > 0
    ensures Bump(k % m, m) == (k + 1) % m
  {
    var q := k / m;
    if k % m + 1 == m {
      assert k + 1 == q * m + m == (q + 1) * m;
      ModUnique(k + 1, m, q + 1, 0);
    } else {
      ModUnique(k + 1, m, q, k % m + 1);
    }
  }

  /** Adding to a reduced index reduces the sum. */
  lemma ModAdd(k: nat, x: nat, m: nat)
    requires m > 0
    ensures (k % m + x) % m == (k + x) % m
  {
    var q, y := (k % m + x) / m, (k % m + x) % m;
    assert k + x == (k / m + q) * m + y;
    ModUnique(k + x, m, k / m + q, y);
  }

  /** Fewer than a round apart, two positions share no slot. */
  lemma SlotsDiffer(a: nat, b: nat, m: nat)
    requires m > 0 && a < b < a + m
    ensures a % m != b % m
  {
    var q, x := a / m, a % m;
    if x + (b - a) < m {
      ModUnique(b, m, q, x + (b - a));
    } else {
      assert b == (q + 1) * m + (x + (b - a) - m);
      ModUnique(b, m, q + 1, x + (b - a) - m);
    }
  }

  // ------------------------------------------------------------------ the invariant

  /** The counters explain the indices and the size. */
  predicate Counted(r: Ring) {
    && r.windex < MaxSize(r) && r.rindex < MaxSize(r)
    && r.windex == r.written % MaxSize(r) && r.rindex == r.popped % MaxSize(r)
    && r.size == r.pushed - r.freed
    && r.written == r.pushed + (if r.producer.PushedIndex? then 1 else 0)
    && r.popped == r.freed + (if r.consumer.PoppedIndex? then 1 else 0)
  }

  /** The producer may write its slot. */
  predicate Owning(r: Ring) {
    r.producer.Claimed? || r.producer.Halfway? || r.producer.Ready?
  }

  /** The size stays within what the two threads were promised. */
  predicate Bounded(r: Ring) {
    && r.written - r.freed <= MaxSize(r)
    && (Owning(r) || (r.producer.Waited? && !r.abort) ==> r.written - r.freed < MaxSize(r))
    && (r.shown == 0 || (r.shown == 1 && r.keepLast))
    && r.shown <= r.size
    && (!r.consumer.Looking? && !(r.consumer.Served? && r.abort) ==> r.shown + 1 <= r.size)
    && (r.consumer.Releasing? || r.consumer.Released? || r.consumer.PoppedIndex? ==> !(r.keepLast && r.shown == 0))
  }

  /** Every slot between the oldest unreleased frame and the write position holds its whole frame. */
  predicate Filled(r: Ring)
    requires MaxSize(r) > 0
  {
    && (forall k: nat :: OldestWhole(r) <= k < r.written ==> r.slots[k % MaxSize(r)] == Whole(k))
    && (r.producer.Ready? ==> r.slots[r.written % MaxSize(r)] == Whole(r.written))
  }

  function OldestWhole(r: Ring): nat {
    r.freed + if r.consumer.Released? || r.consumer.PoppedIndex? then 1 else 0
  }

  predicate Inv(r: Ring) {
    Counted(r) && Bounded(r) && Filled(r)
  }

  lemma CreateInv(maxSize: nat, keepLast: bool)
    requires maxSize > 0
    ensures Inv(Create(maxSize, keepLast))
  {
  }

  /** The slot being written is none of those that hold or held an unreleased frame. */
  lemma WriteSlotIsFree(r: Ring, k: nat)
    requires Inv(r) && Owning(r)
    requires r.freed <= k < r.written
    ensures k % MaxSize(r) != r.windex
  {
    SlotsDiffer(k, r.written, MaxSize(r));
  }

  lemma WriteKeepsInv(r: Ring, a: Action)
    requires Inv(r) && Enabled(r, a) && (a.WriteSome? || a.WriteRest?)
    ensures Inv(Do(r, a))
  {
    forall k: nat | OldestWhole(r) <= k < r.written
      ensures k % MaxSize(r) != r.windex
    {
      WriteSlotIsFree(r, k);
    }
  }

  lemma UnrefKeepsInv(r: Ring)
    requires Inv(r) && Enabled(r, Unref)
    ensures Inv(Do(r, Unref))
  {
    forall k: nat | r.freed < k < r.written
      ensures k % MaxSize(r) != r.rindex
    {
      SlotsDiffer(r.freed, k, MaxSize(r));
    }
    if r.producer.Ready? {
      SlotsDiffer(r.freed, r.written, MaxSize(r));
    }
  }

  /** What decides which slots must be whole. */
  predicate SameContents(r: Ring, t: Ring) {
    && t.slots == r.slots && t.written == r.written && OldestWhole(t) == OldestWhole(r)
    && (t.producer.Ready? ==> r.producer.Ready?)
  }

  lemma FilledKept(r: Ring, t: Ring)
    requires MaxSize(r) > 0 && Filled(r) && SameContents(r, t)
    ensures Filled(t)
  {
  }

  lemma FilledGrows(r: Ring, t: Ring)
    requires MaxSize(r) > 0 && Filled(r) && r.producer.Ready? && !t.producer.Ready?
    requires t.slots == r.slots && t.written == r.written + 1 && OldestWhole(t) == OldestWhole(r)
    ensures Filled(t)
  {
  }

  /** Steps that only move a thread on, or stop the queue. */
  lemma WaitingKeepsInv(r: Ring, a: Action)
    requires Inv(r) && Enabled(r, a)
    requires a.AskRoom? || a.TakeSlot? || a.RefuseSlot? || a.GiveUp? || a.StopQueue? || a.LookRemaining?
          || a.AskFrame? || a.TakeFrame? || a.RefuseFrame? || a.PutBack?
    ensures Inv(Do(r, a))
  {
    FilledKept(r, Do(r, a));
    hide Filled;
  }

  /** The steps that change how many frames are counted or shown. */
  lemma CountingKeepsInv(r: Ring, a: Action)
    requires Inv(r) && Enabled(r, a) && (a.RaiseSize? || a.LowerSize? || a.Next?)
    ensures Inv(Do(r, a))
  {
    FilledKept(r, Do(r, a));
    hide Filled;
  }

  lemma MoveWindexKeepsInv(r: Ring)
    requires Inv(r) && Enabled(r, MoveWindex)
    ensures Inv(Do(r, MoveWindex))
  {
    BumpIsMod(r.written, MaxSize(r));
    FilledGrows(r, Do(r, MoveWindex));
    hide Filled, Bump;
  }

  lemma MoveRindexKeepsInv(r: Ring)
    requires Inv(r) && Enabled(r, MoveRindex)
    ensures Inv(Do(r, MoveRindex))
  {
    BumpIsMod(r.popped, MaxSize(r));
    FilledKept(r, Do(r, MoveRindex));
    hide Filled, Bump;
  }

  lemma StepKeepsInv(r: Ring, a: Action)
    requires Inv(r) && Enabled(r, a)
    ensures Inv(Do(r, a))
  {
    hide Counted, Bounded, Filled, Enabled, Do;
    match a
    case WriteSome => WriteKeepsInv(r, a);
    case WriteRest => WriteKeepsInv(r, a);
    case Unref => UnrefKeepsInv(r);
    case MoveWindex => MoveWindexKeepsInv(r);
    case MoveRindex => MoveRindexKeepsInv(r);
    case RaiseSize => CountingKeepsInv(r, a);
    case LowerSize => CountingKeepsInv(r, a);
    case Next => CountingKeepsInv(r, a);
    case _ => WaitingKeepsInv(r, a);
  }

  /** One step, with what it keeps. */
  function Step(r: Ring, a: Action): (t: Ring)
    requires Inv(r) && Enabled(r, a)
    ensures Inv(t) && MaxSize(t) == MaxSize(r) && t.keepLast == r.keepLast
  {
    StepKeepsInv(r, a);
    StepKeepsShape(r, a);
    Do(r, a)
  }

  lemma StepKeepsShape(r: Ring, a: Action)
    requires Enabled(r, a) && r.windex < MaxSize(r) && r.rindex < MaxSize(r)
    ensures MaxSize(Do(r, a)) == MaxSize(r) && Do(r, a).keepLast == r.keepLast
  {
  }

  /** Where a run of any interleaving ends; it stops at an action that is not enabled. */
  function Run(r: Ring, actions: seq<Action>): (t: Ring)
    requires Inv(r)
    ensures Inv(t) && MaxSize(t) == MaxSize(r) && t.keepLast == r.keepLast
    decreases |actions|
  {
    if actions == [] || !Enabled(r, actions[0]) then r else Run(Step(r, actions[0]), actions[1..])
  }

  // ------------------------------------------------------------------ what the threads may rely on

  /** The write index is ahead of the read index by the size, up to the two updates in flight; and a
      frame that was shown is still counted. */
  lemma IndicesAgree(r: Ring)
    requires Inv(r)
    ensures 0 <= r.shown <= r.size <= MaxSize(r)
    ensures (r.rindex + r.size + (if r.producer.PushedIndex? then 1 else 0)) % MaxSize(r)
         == (r.windex + (if r.consumer.PoppedIndex? then 1 else 0)) % MaxSize(r)
  {
    var w := if r.producer.PushedIndex? then 1 else 0;
    var p := if r.consumer.PoppedIndex? then 1 else 0;
    assert r.popped + (r.size + w) == r.written + p;
    ModAdd(r.popped, r.size + w, MaxSize(r));
    ModAdd(r.written, p, MaxSize(r));
  }

  lemma CountedSlotIsOther(r: Ring, ahead: nat)
    requires Inv(r) && Owning(r) && ahead < r.size
    ensures r.size < MaxSize(r) && r.windex != (r.freed + ahead) % MaxSize(r)
  {
    hide Filled;
    WriteSlotIsFree(r, r.freed + ahead);
  }

  lemma ReadSlotIsOther(r: Ring, ahead: nat)
    requires Inv(r) && Owning(r) && ahead < r.size && !r.consumer.PoppedIndex?
    ensures r.windex != (r.rindex + ahead) % MaxSize(r)
  {
    hide Filled;
    CountedSlotIsOther(r, ahead);
    ModAdd(r.freed, ahead, MaxSize(r));
  }

  lemma PeekedSlotIsOther(r: Ring, ahead: nat)
    requires Inv(r) && Owning(r) && r.shown + ahead < r.size && !r.consumer.PoppedIndex?
    ensures r.windex != (PeekIndex(r) + ahead) % MaxSize(r)
  {
    hide Filled;
    WriteSlotIsFree(r, r.freed + r.shown + ahead);
    ModAdd(r.freed, r.shown, MaxSize(r));
    ModAdd(r.freed + r.shown, ahead, MaxSize(r));
  }

  /** A producer that owns a slot owns it alone: it is not the slot to be shown, not the slot kept or
      being released, and not any other slot that is counted. */
  lemma WriterOwnsItsSlot(r: Ring, ahead: nat)
    requires Inv(r) && Owning(r)
    requires ahead < r.size
    ensures r.size < MaxSize(r)
    ensures r.windex != (r.freed + ahead) % MaxSize(r)
    ensures !r.consumer.PoppedIndex? ==> r.windex != (r.rindex + ahead) % MaxSize(r)
    ensures r.shown + ahead < r.size && !r.consumer.PoppedIndex? ==> r.windex != (PeekIndex(r) + ahead) % MaxSize(r)
  {
    hide Inv, Owning, PeekIndex;
    CountedSlotIsOther(r, ahead);
    if !r.consumer.PoppedIndex? {
      ReadSlotIsOther(r, ahead);
      if r.shown + ahead < r.size {
        PeekedSlotIsOther(r, ahead);
      }
    }
  }

  /** What the consumer looks at is whole, and it is the frame after all those it has passed: frames
      arrive in push order, none lost, repeated or torn. */
  lemma PeekIsNextFrame(r: Ring)
    requires Inv(r) && r.consumer.Peeking?
    ensures r.slots[PeekIndex(r)] == Whole(r.popped + r.shown)
    ensures Remaining(r) > 1 ==> r.slots[PeekNextIndex(r)] == Whole(r.popped + r.shown + 1)
    ensures r.slots[r.rindex] == Whole(r.popped)
  {
    ModAdd(r.popped, r.shown, MaxSize(r));
    ModAdd(r.popped, r.shown + 1, MaxSize(r));
  }

  /** A kept frame stays whole until it is released, whatever the producer does meanwhile. */
  lemma KeptFrameIsWhole(r: Ring)
    requires Inv(r) && r.shown == 1 && !r.consumer.Released? && !r.consumer.PoppedIndex?
    ensures r.slots[r.rindex] == Whole(r.popped)
  {
  }

  /** How many frames the consumer has passed. */
  function Passed(r: Ring): int {
    r.popped + r.shown
  }

  /** How many frames the consumer has gone past: those passed, and the one it is releasing. */
  function GonePast(r: Ring): int {
    Passed(r) + if r.consumer.Releasing? || r.consumer.Released? then 1 else 0
  }

  /** The frame a step goes past, if any: the one being looked at. */
  function PastBy(r: Ring, a: Action): seq<Slot>
    requires Inv(r) && Enabled(r, a)
  {
    if a.Next? then
      PeekIsNextFrame(r);
      [r.slots[PeekIndex(r)]]
    else []
  }

  lemma StepGoesPast(r: Ring, a: Action)
    requires Inv(r) && Enabled(r, a)
    ensures GonePast(Do(r, a)) == GonePast(r) + |PastBy(r, a)|
    ensures a.Next? ==> PastBy(r, a) == [Whole(GonePast(r))]
  {
    if a.Next? {
      PeekIsNextFrame(r);
    }
  }

  /** The frames a run goes past. */
  function Past(r: Ring, actions: seq<Action>): seq<Slot>
    requires Inv(r)
    decreases |actions|
  {
    if actions == [] || !Enabled(r, actions[0]) then []
    else PastBy(r, actions[0]) + Past(Step(r, actions[0]), actions[1..])
  }

  /** Over any run the consumer goes past whole frames, one after another in the order they were pushed:
      none is left out, and none comes twice. */
  lemma {:induction false} PassesInOrder(r: Ring, actions: seq<Action>)
    requires Inv(r)
    ensures GonePast(Run(r, actions)) == GonePast(r) + |Past(r, actions)|
    ensures forall i :: 0 <= i < |Past(r, actions)| ==> Past(r, actions)[i] == Whole(GonePast(r) + i)
    decreases |actions|
  {
    if actions != [] && Enabled(r, actions[0]) {
      StepGoesPast(r, actions[0]);
      hide Do, Enabled, Inv;
      PassesInOrder(Step(r, actions[0]), actions[1..]);
    }
  }

  // ------------------------------------------------------------------ whole runs

  /** The sizes are in range, what is looked at is whole, and the producer's slot is its own; when the
      producer comes back from its wait with the queue still going, there is room. */
  predicate Safe(r: Ring, ahead: nat)
    requires MaxSize(r) > 0
  {
    && 0 <= r.shown <= r.size <= MaxSize(r)
    && (r.consumer.Peeking? ==> 0 <= PeekIndex(r) < MaxSize(r) && r.slots[PeekIndex(r)] == Whole(r.popped + r.shown))
    && (Owning(r) && ahead < r.size ==> r.windex != (r.freed + ahead) % MaxSize(r))
    && (r.producer.Waited? && !r.abort ==> r.size < MaxSize(r))
  }

  lemma InvIsSafe(r: Ring, ahead: nat)
    requires Inv(r)
    ensures MaxSize(r) > 0 && Safe(r, ahead)
  {
    IndicesAgree(r);
    if r.consumer.Peeking? {
      PeekIsNextFrame(r);
    }
    if Owning(r) && ahead < r.size {
      WriterOwnsItsSlot(r, ahead);
    }
    hide Filled;
  }

  /** Frame ring safety over every interleaving, from the empty ring. */
  lemma RingIsSafe(maxSize: nat, keepLast: bool, actions: seq<Action>, ahead: nat)
    requires maxSize > 0
    ensures Inv(Create(maxSize, keepLast))
    ensures MaxSize(Run(Create(maxSize, keepLast), actions)) == maxSize
    ensures Safe(Run(Create(maxSize, keepLast), actions), ahead)
  {
    hide Inv, Run, Safe;
    CreateInv(maxSize, keepLast);
    InvIsSafe(Run(Create(maxSize, keepLast), actions), ahead);
  }

  /** Neither thread can move. */
  predicate Stuck(r: Ring) {
    forall a: Action :: !a.StopQueue? ==> !Enabled(r, a)
  }

  ghost predicate CanGetStuck(r: Ring)
    requires Inv(r)
  {
    exists actions: seq<Action> :: Stuck(Run(r, actions))
  }

  /** The frame ring never blocks both threads, except the one-slot ring that keeps its last frame. */
  lemma StuckIff(maxSize: nat, keepLast: bool)
    requires maxSize > 0
    ensures Inv(Create(maxSize, keepLast))
    ensures CanGetStuck(Create(maxSize, keepLast)) <==> maxSize == 1 && keepLast
  {
    hide Inv, Run, Stuck;
    CreateInv(maxSize, keepLast);
    if maxSize == 1 && keepLast {
      EmptySlot();
      OneSlotGetsStuck();
    } else {
      forall actions: seq<Action>
        ensures !Stuck(Run(Create(maxSize, keepLast), actions))
      {
        SomeoneMoves(Run(Create(maxSize, keepLast), actions));
      }
    }
  }

  lemma SomeoneMoves(r: Ring)
    requires Inv(r) && !(MaxSize(r) == 1 && r.keepLast)
    ensures !Stuck(r)
  {
    var a := match r.producer
             case Claimed => WriteSome
             case Halfway => WriteRest
             case Ready => MoveWindex
             case PushedIndex => RaiseSize
             case Waited => if r.abort then RefuseSlot else TakeSlot
             case Asking =>
               if r.size < MaxSize(r) || r.abort then AskRoom
               else match r.consumer
                    case Looking => LookRemaining
                    case Served => TakeFrame
                    case Peeking => Next
                    case Releasing => Unref
                    case Released => MoveRindex
                    case PoppedIndex => LowerSize;
    assert Enabled(r, a);
  }

  /** Every action of the run is enabled when its turn comes. */
  predicate Legal(r: Ring, actions: seq<Action>)
    requires Inv(r)
    decreases |actions|
  {
    actions != [] ==>
      && Enabled(r, actions[0])
      && Legal(Step(r, actions[0]), actions[1..])
  }

  lemma {:induction false} RunSnoc(r: Ring, actions: seq<Action>, a: Action)
    requires Inv(r) && Legal(r, actions) && Enabled(Run(r, actions), a)
    ensures Legal(r, actions + [a]) && Run(r, actions + [a]) == Step(Run(r, actions), a)
    decreases |actions|
  {
    hide Inv, Enabled, Step;
    if actions == [] {
      assert [a][1..] == [];
    } else {
      RunSnoc(Step(r, actions[0]), actions[1..], a);
      assert (actions + [a])[1..] == actions[1..] + [a];
    }
  }

  ghost predicate Reachable(from: Ring, r: Ring)
    requires Inv(from)
  {
    exists actions: seq<Action> :: Legal(from, actions) && Run(from, actions) == r
  }

  lemma ReachNext(from: Ring, r: Ring, a: Action, t: Ring)
    requires Inv(from) && Reachable(from, r) && Enabled(r, a) && r.windex < MaxSize(r) && r.rindex < MaxSize(r)
    requires t == Do(r, a)
    ensures Reachable(from, t)
  {
    hide Inv, Run, Legal, Do, Enabled;
    var actions: seq<Action> :| Legal(from, actions) && Run(from, actions) == r;
    RunSnoc(from, actions, a);
    assert Legal(from, actions + [a]) && Run(from, actions + [a]) == t;
  }

  /** The one-slot ring: empty, with its first frame written, and with that frame counted. */
  const EMPTY_SLOT: Ring := Ring([Torn], 0, 0, 0, true, 0, false, Asking, Looking, 0, 0, 0, 0)
  const SLOT_WRITTEN: Ring := EMPTY_SLOT.(producer := Ready, slots := [Whole(0)])
  const SLOT_COUNTED: Ring := SLOT_WRITTEN.(producer := Asking, size := 1, pushed := 1, written := 1)

  lemma EmptySlot()
    ensures Create(1, true) == EMPTY_SLOT && Inv(EMPTY_SLOT)
  {
    hide Inv;
    CreateInv(1, true);
    assert Create(1, true).slots == [Torn];
  }

  lemma FrameWritten()
    ensures Inv(EMPTY_SLOT) && Reachable(EMPTY_SLOT, SLOT_WRITTEN)
  {
    hide Inv, Reachable;
    EmptySlot();
    ReachStart(EMPTY_SLOT);
    ReachNext(EMPTY_SLOT, EMPTY_SLOT, AskRoom, EMPTY_SLOT.(producer := Waited));
    ReachNext(EMPTY_SLOT, EMPTY_SLOT.(producer := Waited), TakeSlot, EMPTY_SLOT.(producer := Claimed));
    ReachNext(EMPTY_SLOT, EMPTY_SLOT.(producer := Claimed), WriteSome, EMPTY_SLOT.(producer := Halfway));
    ReachNext(EMPTY_SLOT, EMPTY_SLOT.(producer := Halfway), WriteRest, SLOT_WRITTEN);
  }

  lemma FrameCounted()
    ensures Inv(EMPTY_SLOT) && Reachable(EMPTY_SLOT, SLOT_COUNTED)
  {
    FrameWritten();
    hide Inv, Reachable;
    var moved := SLOT_WRITTEN.(producer := PushedIndex, written := 1);
    ReachNext(EMPTY_SLOT, SLOT_WRITTEN, MoveWindex, moved);
    ReachNext(EMPTY_SLOT, moved, RaiseSize, SLOT_COUNTED);
  }

  /** The slot's frame shown and kept. */
  const SLOT_SHOWN: Ring := SLOT_COUNTED.(shown := 1)

  lemma FrameSeen()
    ensures Inv(EMPTY_SLOT) && Reachable(EMPTY_SLOT, SLOT_COUNTED.(consumer := Peeking))
  {
    hide Inv, Reachable;
    FrameCounted();
    ReachNext(EMPTY_SLOT, SLOT_COUNTED, LookRemaining, SLOT_COUNTED.(consumer := Peeking));
  }

  lemma FrameShown()
    ensures Inv(EMPTY_SLOT) && Reachable(EMPTY_SLOT, SLOT_SHOWN)
  {
    hide Inv, Reachable;
    FrameSeen();
    ReachNext(EMPTY_SLOT, SLOT_COUNTED.(consumer := Peeking), Next, SLOT_SHOWN);
  }

  lemma SlotShownIsStuck()
    ensures Stuck(SLOT_SHOWN)
  {
  }

  /** One frame goes in, is shown and kept; then there is no room and nothing to show. */
  lemma OneSlotGetsStuck()
    ensures Inv(EMPTY_SLOT) && CanGetStuck(EMPTY_SLOT)
  {
    hide Reachable, Stuck, CanGetStuck, Run;
    FrameShown();
    SlotShownIsStuck();
    StuckReached(EMPTY_SLOT, SLOT_SHOWN);
  }

  lemma ReachStart(r: Ring)
    requires Inv(r)
    ensures Reachable(r, r)
  {
    assert Legal(r, []) && Run(r, []) == r;
  }

  lemma StuckReached(from: Ring, r: Ring)
    requires Inv(from) && Reachable(from, r) && Stuck(r)
    ensures CanGetStuck(from)
  {
  }

  // ------------------------------------------------------------------ frames in the making, and the stop

  /** A slot half written, or released, holds nothing that may be read. */
  predicate TornInside(r: Ring)
    requires r.windex < MaxSize(r) && r.rindex < MaxSize(r)
  {
    && (r.producer.Halfway? ==> r.slots[r.windex] == Torn)
    && (r.consumer.Released? ==> r.slots[r.rindex] == Torn)
  }

  lemma TornKept(r: Ring, a: Action)
    requires Inv(r) && Enabled(r, a) && TornInside(r)
    ensures Inv(Do(r, a)) && TornInside(Do(r, a))
  {
    StepKeepsInv(r, a);
    if Owning(r) && r.consumer.Released? {
      WriteSlotIsFree(r, r.freed);
    }
    hide Filled, Bump;
  }

  /** Over any run no half-written frame looks whole to anyone. */
  lemma {:induction false} NothingHalfIsWhole(r: Ring, actions: seq<Action>)
    requires Inv(r) && TornInside(r)
    ensures TornInside(Run(r, actions))
    decreases |actions|
  {
    if actions != [] && Enabled(r, actions[0]) {
      TornKept(r, actions[0]);
      hide Do, Enabled, Counted, Bounded, Filled, TornInside;
      NothingHalfIsWhole(Step(r, actions[0]), actions[1..]);
    }
  }

  /** Frames written or being written. */
  function Begun(r: Ring): int {
    r.written + if Owning(r) then 1 else 0
  }

  lemma NoneBegunNow(r: Ring, a: Action)
    requires Inv(r) && Enabled(r, a) && r.abort
    ensures Step(r, a).abort && Begun(Step(r, a)) <= Begun(r) && !a.TakeFrame?
  {
    hide Inv, Bump;
  }

  /** Once the queue is stopped no new frame is begun, and no wait for a frame is answered with one. */
  lemma {:induction false} NoneBegunOnceStopped(r: Ring, actions: seq<Action>)
    requires Inv(r) && r.abort
    ensures Run(r, actions).abort && Begun(Run(r, actions)) <= Begun(r)
    ensures TakeFrame !in actions[..Ran(r, actions)]
    decreases |actions|
  {
    if actions != [] && Enabled(r, actions[0]) {
      hide Do, Enabled, Inv, Begun, Step;
      var t, n := Step(r, actions[0]), Ran(r, actions);
      NoneBegunNow(r, actions[0]);
      NoneBegunOnceStopped(t, actions[1..]);
      assert actions[..n] == [actions[0]] + actions[1..][..n - 1];
    }
  }

  /** How many actions of a list are taken. */
  function Ran(r: Ring, actions: seq<Action>): (n: nat)
    requires Inv(r)
    ensures n <= |actions|
    decreases |actions|
  {
    if actions == [] || !Enabled(r, actions[0]) then 0 else 1 + Ran(Step(r, actions[0]), actions[1..])
  }

  /** So stopping the queue lets at most the frame in the making still come. */
  lemma StopEndsFrames(r: Ring, actions: seq<Action>)
    requires Inv(r) && !r.abort
    ensures var t := Run(r, [StopQueue] + actions);
            t.written <= r.written + (if Owning(r) then 1 else 0) && t.abort
  {
    var t := Step(r, StopQueue);
    assert ([StopQueue] + actions)[1..] == actions;
    NoneBegunOnceStopped(t, actions);
    hide Inv, Enabled, Step;
  }

  lemma RunTwo(r: Ring, a: Action, b: Action)
    requires Inv(r) && Enabled(r, a) && Enabled(Step(r, a), b)
    ensures Legal(r, [a, b]) && Run(r, [a, b]) == Step(Step(r, a), b)
  {
    hide Inv, Enabled, Step;
    var t := Step(r, a);
    assert [a, b][1..] == [b] && [b][1..] == [];
    assert Run(t, [b]) == Run(Step(t, b), []) == Step(t, b);
    assert Legal(t, [b]);
  }

  /** Nobody is kept waiting by a stopped queue: either thread can ask and come back with nothing changed,
      and a slot that was taken can be given back. */
  lemma StopEndsWaits(r: Ring)
    requires Inv(r) && r.abort
    ensures r.producer.Asking? ==> Legal(r, [AskRoom, RefuseSlot]) && Run(r, [AskRoom, RefuseSlot]) == r
    ensures r.consumer.Looking? ==> Legal(r, [AskFrame, RefuseFrame]) && Run(r, [AskFrame, RefuseFrame]) == r
    ensures r.producer.Claimed? ==> Enabled(r, GiveUp) && Step(r, GiveUp) == r.(producer := Asking)
  {
    if r.producer.Asking? {
      RunTwo(r, AskRoom, RefuseSlot);
    }
    if r.consumer.Looking? {
      RunTwo(r, AskFrame, RefuseFrame);
    }
    hide Inv, Legal, Run;
  }
}
