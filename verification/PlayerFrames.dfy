/** The packet queue, its decoder and the display joined: frames are stamped with the serial their packets
    carried, go through the ring, and are compared with the queue's serial before they are shown. */
module PlayerFrames {
  import opened PacketQueue
  import R = FrameRing
  import S = SeekProtocol

  /** What a frame was made of: its stamp, and the packets the codec had been given. */
  datatype Made = Made(stamp: int, fed: seq<Entry>)

  /** What the display found when it compared a frame's stamp with the queue's serial; and, for the model
      only, the reader's position at that moment and whether no seek was under way. */
  datatype View = Unseen | Seen(frame: nat, stamp: int, compared: int, position: nat, settled: bool)

  /** A frame the display has gone past, shown or dropped. */
  datatype Pass = Pass(view: View, shown: bool)

  /** `hasFrame`: the codec has given the decoder thread a frame since its last comparison. */
  datatype Player = Player(
    seek: S.State, ring: R.Ring, hasFrame: bool, made: map<nat, Made>, view: View, passes: seq<Pass>)

  datatype Action =
    | AtQueue(q: S.Action)
    | Produce(r: R.Action)
    | Look | CompareSerial | GoPast(show: bool) | Later
    | Consume(c: R.Action)

  function Create(maxSize: nat): Player
    requires maxSize > 0
  {
    Player(S.INITIAL, R.Create(maxSize, true).(abort := true), false, map[], Unseen, [])
  }

  /** Steps of the decoder thread. */
  predicate Decodes(a: S.Action) {
    || a.CompareSerials? || a.CodecFrame? || a.CodecAgain? || a.CodecError? || a.CodecEnd? || a.SeeAbort?
    || a.FetchPacket? || a.RecheckSerial? || a.FeedCodec?
  }

  predicate Produces(a: R.Action) {
    || a.AskRoom? || a.TakeSlot? || a.RefuseSlot? || a.WriteSome? || a.WriteRest? || a.GiveUp?
    || a.MoveWindex? || a.RaiseSize?
  }

  /** One thread decodes and queues pictures: it does either at a time. */
  predicate Enabled(p: Player, a: Action) {
    match a
    case AtQueue(q) => S.Enabled(p.seek, q) && (Decodes(q) ==> p.ring.producer.Asking?)
    case Produce(r) => Produces(r) && R.Enabled(p.ring, r) && (r.AskRoom? ==> p.hasFrame)
    case Look => R.Enabled(p.ring, R.LookRemaining)
    case CompareSerial => p.ring.consumer.Peeking? && p.view.Unseen?
    case GoPast(show) => p.ring.consumer.Peeking? && p.view.Seen? && (show ==> p.view.stamp == p.view.compared)
    case Later => p.ring.consumer.Peeking? && p.view.Seen? && p.view.stamp == p.view.compared
    case Consume(c) => (c.Unref? || c.MoveRindex? || c.LowerSize?) && R.Enabled(p.ring, c)
  }

  /** Stopping the queue stops waiting at the ring; starting it again lets both go on. */
  function RingAfter(r: R.Ring, q: S.Action): R.Ring {
    if q.AbortQueue? then r.(abort := true) else if q.StartStream? then r.(abort := false) else r
  }

  function SeenNow(p: Player): View
    requires Inv(p) && p.ring.consumer.Peeking?
  {
    PeekedIsMade(p);
    var frame := p.ring.slots[R.PeekIndex(p.ring)].frame;
    Seen(frame, p.made[frame].stamp, p.seek.queue.serial, p.seek.epoch, p.seek.reader.Reading? && !p.seek.queue.abort)
  }

  function Do(p: Player, a: Action): Player
    requires Inv(p) && Enabled(p, a)
  {
    match a
    case AtQueue(q) =>
      p.(seek := S.Do(p.seek, q), ring := RingAfter(p.ring, q),
         hasFrame := q.CodecFrame? || (p.hasFrame && !Decodes(q)))
    case Produce(r) =>
      p.(ring := R.Do(p.ring, r),
         made := if r.WriteRest? then p.made[p.ring.written := Made(p.seek.decoder.pktSerial, p.seek.decoder.fed)]
                 else p.made)
    case Look => p.(ring := R.Do(p.ring, R.LookRemaining))
    case CompareSerial => p.(view := SeenNow(p))
    case GoPast(show) => p.(ring := R.Do(p.ring, R.Next), view := Unseen, passes := p.passes + [Pass(p.view, show)])
    case Later => p.(ring := R.Do(p.ring, R.PutBack), view := Unseen)
    case Consume(c) => p.(ring := R.Do(p.ring, c))
  }

  // ------------------------------------------------------------------ the invariant

  /** All packets behind a frame carry its stamp, and were read between the two seeks that serial stands for. */
  predicate Dated(s: S.State, m: Made) {
    && m.stamp <= s.queue.serial
    && forall i :: 0 <= i < |m.fed| ==>
         && m.fed[i].serial == m.stamp && m.fed[i].pkt.Media?
         && m.stamp in s.epochs && s.epochs[m.stamp] == m.fed[i].pkt.epoch
  }

  /** Frames that have been written whole. */
  predicate WrittenWhole(r: R.Ring, k: nat) {
    k < r.written || (k == r.written && r.producer.Ready?)
  }

  ghost predicate MadeInv(p: Player) {
    forall k: nat :: WrittenWhole(p.ring, k) ==> k in p.made && Dated(p.seek, p.made[k])
  }

  /** The decoder thread stands still at its comparison while it queues pictures. */
  predicate ThreadInv(p: Player) {
    && (p.hasFrame || !p.ring.producer.Asking? ==> p.seek.decoder.pc.Compare?)
    && !p.ring.consumer.Served?
  }

  predicate Witnessed(p: Player, v: View)
    requires v.Seen?
  {
    && v.frame < p.ring.written && v.frame in p.made && v.stamp == p.made[v.frame].stamp
    && v.compared <= p.seek.queue.serial
    && (v.settled ==> v.compared in p.seek.epochs && p.seek.epochs[v.compared] == v.position)
  }

  predicate DisplayInv(p: Player) {
    && (p.view.Seen? ==> p.ring.consumer.Peeking? && Witnessed(p, p.view) && p.view.frame == R.Passed(p.ring))
    && |p.passes| == R.GonePast(p.ring)
    && forall i :: 0 <= i < |p.passes| ==>
         && p.passes[i].view.Seen? && Witnessed(p, p.passes[i].view) && p.passes[i].view.frame == i
         && (p.passes[i].shown ==> p.passes[i].view.stamp == p.passes[i].view.compared)
  }

  ghost predicate Inv(p: Player) {
    S.Inv(p.seek) && R.Inv(p.ring) && MadeInv(p) && ThreadInv(p) && DisplayInv(p)
  }

  lemma PeekedIsMade(p: Player)
    requires R.Inv(p.ring) && MadeInv(p) && p.ring.consumer.Peeking?
    ensures 0 <= R.PeekIndex(p.ring) < R.MaxSize(p.ring)
    ensures var s := p.ring.slots[R.PeekIndex(p.ring)];
            s.Whole? && s.frame == R.Passed(p.ring) && s.frame < p.ring.written && s.frame in p.made
  {
    R.PeekIsNextFrame(p.ring);
    assert WrittenWhole(p.ring, p.ring.popped + p.ring.shown);
  }

  lemma CreateInv(maxSize: nat)
    requires maxSize > 0
    ensures Inv(Create(maxSize))
  {
    S.InitialInv();
    R.CreateInv(maxSize, true);
  }

  /** Serials are dated once and for all, and never fall. */
  lemma DatesStay(s: S.State, a: S.Action)
    requires S.Inv(s) && S.Enabled(s, a)
    ensures forall k :: k in s.epochs ==> k in S.Do(s, a).epochs && S.Do(s, a).epochs[k] == s.epochs[k]
    ensures S.Do(s, a).queue.serial >= s.queue.serial
  {
  }

  lemma AbortKeepsRing(r: R.Ring)
    requires R.Inv(r)
    ensures R.Inv(r.(abort := true))
  {
    if !r.abort {
      R.StepKeepsInv(r, R.StopQueue);
      hide R.Inv;
    }
  }

  /** With no thread waiting at the ring the mark may be taken away. */
  lemma RestartKeepsRing(r: R.Ring)
    requires R.Inv(r) && r.producer.Asking? && !r.consumer.Served?
    ensures R.Inv(r.(abort := false))
  {
    hide R.Filled;
    R.FilledKept(r, r.(abort := false));
  }

  lemma RingAfterInv(p: Player, q: S.Action)
    requires Inv(p) && Enabled(p, AtQueue(q))
    ensures R.Inv(RingAfter(p.ring, q))
  {
    hide R.Inv;
    if q.StartStream? {
      assert p.seek.decoder.pc.Gone?;
      RestartKeepsRing(p.ring);
    } else if q.AbortQueue? {
      AbortKeepsRing(p.ring);
    }
  }

  lemma ThreadAfter(p: Player, q: S.Action)
    requires Inv(p) && Enabled(p, AtQueue(q))
    ensures ThreadInv(Do(p, AtQueue(q)))
  {
  }

  /** The packet queue's steps touch neither the frames nor what the display has gone past. */
  lemma OutsideRing(p: Player, q: S.Action)
    requires Inv(p) && Enabled(p, AtQueue(q))
    ensures var t := Do(p, AtQueue(q));
            && t.made == p.made && t.view == p.view && t.passes == p.passes && t.seek == S.Do(p.seek, q)
            && t.ring == p.ring.(abort := t.ring.abort)
  {
    hide S.Do, S.Inv, S.Enabled, R.Inv, MadeInv, DisplayInv;
  }

  /** Serials keep their dates from p to t, whose frames are the same. */
  predicate SameFrames(p: Player, t: Player) {
    && t.made == p.made && t.view == p.view && t.passes == p.passes
    && t.ring == p.ring.(abort := t.ring.abort)
    && (forall k :: k in p.seek.epochs ==> k in t.seek.epochs && t.seek.epochs[k] == p.seek.epochs[k])
    && t.seek.queue.serial >= p.seek.queue.serial
  }

  lemma WitnessedStays(p: Player, t: Player, v: View)
    requires v.Seen? && Witnessed(p, v) && SameFrames(p, t)
    ensures Witnessed(t, v)
  {
  }

  lemma DatedStays(p: Player, t: Player, m: Made)
    requires Dated(p.seek, m) && SameFrames(p, t)
    ensures Dated(t.seek, m)
  {
    forall i | 0 <= i < |m.fed|
      ensures m.stamp in t.seek.epochs && t.seek.epochs[m.stamp] == m.fed[i].pkt.epoch
    {
      assert m.stamp in p.seek.epochs && p.seek.epochs[m.stamp] == m.fed[i].pkt.epoch;
    }
  }

  lemma MadeInvStays(p: Player, t: Player)
    requires MadeInv(p) && SameFrames(p, t)
    ensures MadeInv(t)
  {
    hide Dated;
    forall k: nat | WrittenWhole(t.ring, k)
      ensures k in t.made && Dated(t.seek, t.made[k])
    {
      assert WrittenWhole(p.ring, k);
      DatedStays(p, t, p.made[k]);
    }
  }

  lemma DisplayInvStays(p: Player, t: Player)
    requires DisplayInv(p) && SameFrames(p, t)
    ensures DisplayInv(t)
  {
    hide Witnessed;
    if p.view.Seen? {
      WitnessedStays(p, t, p.view);
    }
    forall i | 0 <= i < |t.passes|
      ensures t.passes[i].view.Seen? && Witnessed(t, t.passes[i].view)
    {
      WitnessedStays(p, t, p.passes[i].view);
    }
  }

  lemma MadeStays(p: Player, q: S.Action)
    requires Inv(p) && Enabled(p, AtQueue(q))
    ensures MadeInv(Do(p, AtQueue(q))) && DisplayInv(Do(p, AtQueue(q)))
  {
    hide S.Do, S.Inv, S.Enabled, R.Inv, Do, DisplayInv, MadeInv;
    DatesStay(p.seek, q);
    OutsideRing(p, q);
    MadeInvStays(p, Do(p, AtQueue(q)));
    DisplayInvStays(p, Do(p, AtQueue(q)));
  }

  lemma QueueKeepsInv(p: Player, q: S.Action)
    requires Inv(p) && Enabled(p, AtQueue(q))
    ensures Inv(Do(p, AtQueue(q)))
  {
    S.StepKeepsInv(p.seek, q);
    RingAfterInv(p, q);
    ThreadAfter(p, q);
    MadeStays(p, q);
    hide S.Inv, S.Do, S.Enabled, R.Inv, MadeInv, ThreadInv, DisplayInv, RingAfter;
  }

  /** A frame queued now is made of packets that carry the decoder's serial. */
  lemma FreshIsDated(p: Player)
    requires Inv(p) && p.ring.producer.Halfway?
    ensures Dated(p.seek, Made(p.seek.decoder.pktSerial, p.seek.decoder.fed))
  {
    assert S.DecoderInv(p.seek);
  }

  /** What the decoder thread's steps on the ring do to the frames written. */
  lemma ProducerMoves(r: R.Ring, a: R.Action)
    requires R.Inv(r) && R.Enabled(r, a) && Produces(a)
    ensures var t := R.Do(r, a);
            && R.Inv(t) && t.consumer == r.consumer && R.Passed(t) == R.Passed(r) && t.written >= r.written
            && (forall k: nat :: WrittenWhole(t, k) ==> WrittenWhole(r, k) || (a.WriteRest? && k == r.written))
            && (!t.producer.Asking? ==> a.AskRoom? || !r.producer.Asking?)
            && (a.WriteRest? ==> r.producer.Halfway?)
  {
    R.StepKeepsInv(r, a);
  }

  lemma ProduceKeepsInv(p: Player, r: R.Action)
    requires Inv(p) && Enabled(p, Produce(r))
    ensures Inv(Do(p, Produce(r)))
  {
    hide S.Inv, R.Inv, Dated, R.Do, R.Enabled, WrittenWhole;
    ProducerMoves(p.ring, r);
    if r.WriteRest? {
      FreshIsDated(p);
    }
    assert MadeInv(Do(p, Produce(r)));
    assert ThreadInv(Do(p, Produce(r)));
    assert DisplayInv(Do(p, Produce(r)));
  }

  /** A comparison made while no seek is under way is with the serial of the reader's position. */
  lemma SettledIsDated(s: S.State)
    requires S.Inv(s) && s.reader.Reading? && !s.queue.abort
    ensures s.queue.serial in s.epochs && s.epochs[s.queue.serial] == s.epoch
  {
  }

  /** What the display's steps on the ring do to the frames written and the frames gone past. */
  lemma ConsumerMoves(r: R.Ring, a: R.Action)
    requires R.Inv(r) && R.Enabled(r, a)
    requires a.LookRemaining? || a.PutBack? || a.Next? || a.Unref? || a.MoveRindex? || a.LowerSize?
    ensures var t := R.Do(r, a);
            && R.Inv(t) && t.written == r.written && t.producer == r.producer && !t.consumer.Served?
            && R.GonePast(t) == R.GonePast(r) + (if a.Next? then 1 else 0)
            && (t.consumer.Peeking? ==> a.LookRemaining?)
  {
    R.StepKeepsInv(r, a);
  }

  lemma CompareKeepsInv(p: Player)
    requires Inv(p) && Enabled(p, CompareSerial)
    ensures Inv(Do(p, CompareSerial))
  {
    PeekedIsMade(p);
    if p.seek.reader.Reading? && !p.seek.queue.abort {
      SettledIsDated(p.seek);
    }
    assert WrittenWhole(p.ring, R.Passed(p.ring));
    hide S.Inv, R.Inv, Dated;
  }

  lemma GoPastKeepsInv(p: Player, show: bool)
    requires Inv(p) && Enabled(p, GoPast(show))
    ensures Inv(Do(p, GoPast(show)))
  {
    hide S.Inv, R.Inv, Dated, R.Do, Witnessed;
    ConsumerMoves(p.ring, R.Next);
    var t := Do(p, GoPast(show));
    assert Witnessed(t, p.view) && forall i :: 0 <= i < |p.passes| ==> Witnessed(t, p.passes[i].view) by {
      WitnessStays(p, t);
    }
  }

  lemma WitnessStays(p: Player, t: Player)
    requires p.seek == t.seek && p.made == t.made && p.ring.written == t.ring.written
    ensures forall v: View :: v.Seen? && Witnessed(p, v) ==> Witnessed(t, v)
  {
  }

  lemma RingStepKeepsInv(p: Player, a: Action)
    requires Inv(p) && Enabled(p, a) && (a.Look? || a.Later? || a.Consume?)
    ensures Inv(Do(p, a))
  {
    hide S.Inv, R.Inv, Dated, R.Do, Witnessed;
    ConsumerMoves(p.ring, match a case Look => R.LookRemaining case Later => R.PutBack case Consume(c) => c);
    WitnessStays(p, Do(p, a));
  }

  lemma StepKeepsInv(p: Player, a: Action)
    requires Inv(p) && Enabled(p, a)
    ensures Inv(Do(p, a))
  {
    hide Inv, Enabled, Do;
    match a
    case AtQueue(q) => QueueKeepsInv(p, q);
    case Produce(r) => ProduceKeepsInv(p, r);
    case CompareSerial => CompareKeepsInv(p);
    case GoPast(show) => GoPastKeepsInv(p, show);
    case _ => RingStepKeepsInv(p, a);
  }

  // ------------------------------------------------------------------ every interleaving

  function Run(p: Player, actions: seq<Action>): (t: Player)
    requires Inv(p)
    ensures Inv(t)
    decreases |actions|
  {
    if actions == [] || !Enabled(p, actions[0]) then p
    else
      StepKeepsInv(p, actions[0]);
      Run(Do(p, actions[0]), actions[1..])
  }

  /** Whatever the threads do: frames are gone past one by one in the order they were queued; one that is
      shown carries the serial the queue had when it was compared, and so do all packets it was decoded
      from; and if no seek was under way at that moment, all of these were read at the reader's position. */
  lemma NoStaleFrameShown(maxSize: nat, actions: seq<Action>)
    requires maxSize > 0
    ensures Inv(Create(maxSize))
    ensures var p := Run(Create(maxSize), actions);
            forall i :: 0 <= i < |p.passes| ==>
              && p.passes[i].view.Seen? && p.passes[i].view.frame == i && i in p.made
              && (p.passes[i].shown ==> Current(p.made[i], p.passes[i].view))
  {
    CreateInv(maxSize);
    var p := Run(Create(maxSize), actions);
    forall i: nat | i < |p.passes| && p.passes[i].shown
      ensures i in p.made && Current(p.made[i], p.passes[i].view)
    {
      assert Witnessed(p, p.passes[i].view);
      assert WrittenWhole(p.ring, i);
    }
  }

  predicate Current(m: Made, v: View)
    requires v.Seen?
  {
    && m.stamp == v.compared
    && forall k :: 0 <= k < |m.fed| ==>
         m.fed[k].serial == v.compared && (v.settled ==> m.fed[k].pkt.Media? && m.fed[k].pkt.epoch == v.position)
  }

  /** The frame kept for redrawing is the last one gone past, whole; so a redraw shows a frame of an older
      serial just when that one was dropped for it. */
  lemma KeptIsLastPassed(p: Player)
    requires Inv(p) && p.ring.consumer.Looking? && p.ring.shown == 1
    ensures p.passes != [] && p.ring.slots[p.ring.rindex] == R.Whole(|p.passes| - 1)
    ensures var last := p.passes[|p.passes| - 1];
            && last.view.Seen? && last.view.frame == |p.passes| - 1 && last.view.frame in p.made
            && p.made[last.view.frame].stamp == last.view.stamp
            && (last.view.stamp != last.view.compared ==> !last.shown)
  {
    R.KeptFrameIsWhole(p.ring);
    assert Witnessed(p, p.passes[|p.passes| - 1].view);
  }

  /** The ring's threads see the queue stopped exactly while it is. */
  predicate Agree(p: Player) {
    p.ring.abort == p.seek.queue.abort
  }

  lemma QueueKeepsAgreeing(p: Player, q: S.Action)
    requires Inv(p) && Enabled(p, AtQueue(q)) && Agree(p)
    ensures Agree(Do(p, AtQueue(q)))
  {
    hide R.Inv, S.QueueInv, S.ReaderInv;
  }

  lemma RingKeepsAgreeing(p: Player, a: Action)
    requires Inv(p) && Enabled(p, a) && Agree(p) && !a.AtQueue?
    ensures Agree(Do(p, a))
  {
    hide S.Do, S.Inv, S.Enabled, R.Inv, R.Bump, MadeInv, ThreadInv, DisplayInv, SeenNow;
  }

  lemma StepKeepsAgreeing(p: Player, a: Action)
    requires Inv(p) && Enabled(p, a) && Agree(p)
    ensures Agree(Do(p, a))
  {
    hide Inv, Enabled, Do, Agree;
    if a.AtQueue? {
      QueueKeepsAgreeing(p, a.q);
    } else {
      RingKeepsAgreeing(p, a);
    }
  }

  /** Over any run stopping the queue stops the waiting at the ring, and starting it ends that. */
  lemma {:induction false} StopReachesRing(p: Player, actions: seq<Action>)
    requires Inv(p) && Agree(p)
    ensures Agree(Run(p, actions))
    decreases |actions|
  {
    if actions != [] && Enabled(p, actions[0]) {
      StepKeepsAgreeing(p, actions[0]);
      StepKeepsInv(p, actions[0]);
      hide Do, Enabled, Inv, Agree;
      StopReachesRing(Do(p, actions[0]), actions[1..]);
    }
  }

  // ------------------------------------------------------------------ the display goes on

  /** One step. */
  function Then(p: Player, a: Action): (t: Player)
    requires Inv(p) && Enabled(p, a)
    ensures Inv(t)
  {
    StepKeepsInv(p, a);
    Do(p, a)
  }

  /** A frame that is not due yet may be left as it is, to be compared again. */
  lemma LaterLeavesIt(p: Player)
    requires Inv(p) && p.ring.consumer.Peeking? && p.view.Seen? && p.view.stamp == p.view.compared
    ensures Enabled(p, Later) && Enabled(p, GoPast(true))
    ensures Then(p, Later) == p.(ring := p.ring.(consumer := R.Looking), view := Unseen)
    ensures Enabled(Then(p, Later), Look) && Then(Then(p, Later), Look) == p.(view := Unseen)
  {
    hide S.Inv, R.Filled;
  }

  /** A slot whose frame is given up is freed in three steps. */
  lemma SlotIsFreed(p: Player)
    requires Inv(p) && p.ring.consumer.Releasing?
    ensures Enabled(p, Consume(R.Unref))
    ensures Enabled(Then(p, Consume(R.Unref)), Consume(R.MoveRindex))
    ensures Enabled(Then(Then(p, Consume(R.Unref)), Consume(R.MoveRindex)), Consume(R.LowerSize))
    ensures var t := Then(Then(Then(p, Consume(R.Unref)), Consume(R.MoveRindex)), Consume(R.LowerSize));
            && t.ring.consumer.Looking? && t.ring.size == p.ring.size - 1 && t.ring.popped == p.ring.popped + 1
            && t.passes == p.passes && t.made == p.made && t.seek == p.seek
  {
    hide Inv;
  }
}
