/** A run of the whole player: a packet is read, reaches the codec, and its frame is shown. */
module PlayerRun {
  import opened PacketQueue
  import opened PlayerFrames
  import R = FrameRing
  import S = SeekProtocol

  /** Some actions lead from one state to the other. */
  ghost predicate Leads(p: Player, q: Player) {
    Inv(p) && exists actions :: Run(p, actions) == q && AllEnabled(p, actions)
  }

  predicate AllEnabled(p: Player, actions: seq<Action>)
    requires Inv(p)
    decreases |actions|
  {
    actions == [] ||
    (Enabled(p, actions[0]) && (StepKeepsInv(p, actions[0]); AllEnabled(Do(p, actions[0]), actions[1..])))
  }

  lemma LeadsNowhere(p: Player)
    requires Inv(p)
    ensures Leads(p, p)
  {
    assert Run(p, []) == p && AllEnabled(p, []);
  }

  lemma {:induction false} RunSnoc(p: Player, actions: seq<Action>, a: Action)
    requires Inv(p) && AllEnabled(p, actions) && Enabled(Run(p, actions), a)
    ensures AllEnabled(p, actions + [a]) && Run(p, actions + [a]) == Do(Run(p, actions), a)
    decreases |actions|
  {
    hide Do, Enabled, Inv;
    if actions == [] {
      StepKeepsInv(p, a);
      assert [] + [a] == [a] && [a][1..] == [];
    } else {
      StepKeepsInv(p, actions[0]);
      assert (actions + [a])[1..] == actions[1..] + [a];
      RunSnoc(Do(p, actions[0]), actions[1..], a);
    }
  }

  /** One step further. */
  lemma LeadsOn(start: Player, p: Player, a: Action, q: Player)
    requires Leads(start, p) && Inv(p) && Enabled(p, a) && Do(p, a) == q
    ensures Leads(start, q) && Inv(q)
  {
    hide Do, Enabled, Inv, Run, AllEnabled;
    StepKeepsInv(p, a);
    var actions :| Run(start, actions) == p && AllEnabled(start, actions);
    RunSnoc(start, actions, a);
  }

  // ------------------------------------------------------------------ the run

  const PACKET: Packet := Media(0, 100, 1)
  const RUNNING: Queue := Queue([], 1, false)

  const AT_START: Player := Create(3)
  const EMPTY_RING: R.Ring := R.Create(3, true)

  /** With the stream open and no picture queued. */
  function Quiet(q: Queue, d: S.Decoder, hasFrame: bool): Player {
    Player(S.State(q, S.Reading, 0, d, false, map[1 := 0]), EMPTY_RING, hasFrame, map[], Unseen, [])
  }

  const FLUSH_WAITS: Queue := Queue([Entry(Flush, 1)], 1, false)
  const PACKET_WAITS: Queue := Queue([Entry(PACKET, 1)], 1, false)

  function Holding(pc: S.DecoderPc, lastFlush: int, cur: seq<Packet>): S.Decoder {
    S.Decoder(pc, 1, [], cur, lastFlush, [])
  }

  function Fed(pc: S.DecoderPc): S.Decoder {
    S.Decoder(pc, 1, [], [], 1, [Entry(PACKET, 1)])
  }

  /** A step of the reader or the decoder, with no picture queued. */
  lemma QueueStep(q: Queue, d: S.Decoder, a: S.Action, r: Queue, e: S.Decoder)
    requires Leads(AT_START, Quiet(q, d, false)) && Inv(Quiet(q, d, false))
    requires S.Enabled(Quiet(q, d, false).seek, a) && !a.StartStream? && !a.AbortQueue?
    requires S.HandsFull(d) && S.Do(Quiet(q, d, false).seek, a) == Quiet(r, e, false).seek
    ensures Leads(AT_START, Quiet(r, e, a.CodecFrame?)) && Inv(Quiet(r, e, a.CodecFrame?))
  {
    hide Leads, Inv, S.Do, S.Enabled;
    LeadsOn(AT_START, Quiet(q, d, false), AtQueue(a), Quiet(r, e, a.CodecFrame?));
  }

  lemma Opened()
    ensures Leads(AT_START, Quiet(FLUSH_WAITS, S.NEW_DECODER, false)) && Inv(Quiet(FLUSH_WAITS, S.NEW_DECODER, false))
  {
    hide Leads, Inv;
    CreateInv(3);
    LeadsNowhere(AT_START);
    LeadsOn(AT_START, AT_START, AtQueue(S.StartStream), Quiet(FLUSH_WAITS, S.NEW_DECODER, false));
  }

  lemma FlushIsFetched()
    ensures Leads(AT_START, Quiet(RUNNING, Holding(S.Recheck, -1, [Flush]), false))
    ensures Inv(Quiet(RUNNING, Holding(S.Recheck, -1, [Flush]), false))
  {
    hide Leads, Inv;
    Opened();
    var d := S.NEW_DECODER;
    QueueStep(FLUSH_WAITS, d, S.CompareSerials, FLUSH_WAITS, d.(pc := S.Fetch));
    QueueStep(FLUSH_WAITS, d.(pc := S.Fetch), S.FetchPacket, RUNNING, Holding(S.Recheck, -1, [Flush]));
  }

  /** The flush packet reaches the codec. */
  lemma FlushIsFed()
    ensures Leads(AT_START, Quiet(RUNNING, Holding(S.Compare, 1, []), false))
    ensures Inv(Quiet(RUNNING, Holding(S.Compare, 1, []), false))
  {
    hide Leads, Inv;
    FlushIsFetched();
    QueueStep(RUNNING, Holding(S.Recheck, -1, [Flush]), S.RecheckSerial, RUNNING, Holding(S.Feed, -1, [Flush]));
    QueueStep(RUNNING, Holding(S.Feed, -1, [Flush]), S.FeedCodec(false), RUNNING, Holding(S.Compare, 1, []));
  }

  /** A packet is put, and fetched. */
  lemma PacketIsFetched()
    ensures Leads(AT_START, Quiet(RUNNING, Holding(S.Recheck, 1, [PACKET]), false))
    ensures Inv(Quiet(RUNNING, Holding(S.Recheck, 1, [PACKET]), false))
  {
    hide Leads, Inv;
    FlushIsFed();
    QueueStep(RUNNING, Holding(S.Compare, 1, []), S.CompareSerials, RUNNING, Holding(S.Receive, 1, []));
    QueueStep(RUNNING, Holding(S.Receive, 1, []), S.CodecAgain, RUNNING, Holding(S.Fetch, 1, []));
    QueueStep(RUNNING, Holding(S.Fetch, 1, []), S.PutMedia(PACKET), PACKET_WAITS, Holding(S.Fetch, 1, []));
    QueueStep(PACKET_WAITS, Holding(S.Fetch, 1, []), S.FetchPacket, RUNNING, Holding(S.Recheck, 1, [PACKET]));
  }

  /** The packet reaches the codec, which gives a frame. */
  lemma PacketIsFed()
    ensures Leads(AT_START, Quiet(RUNNING, Fed(S.Compare), true)) && Inv(Quiet(RUNNING, Fed(S.Compare), true))
  {
    hide Leads, Inv;
    PacketIsFetched();
    QueueStep(RUNNING, Holding(S.Recheck, 1, [PACKET]), S.RecheckSerial, RUNNING, Holding(S.Feed, 1, [PACKET]));
    QueueStep(RUNNING, Holding(S.Feed, 1, [PACKET]), S.FeedCodec(false), RUNNING, Fed(S.Compare));
    QueueStep(RUNNING, Fed(S.Compare), S.CompareSerials, RUNNING, Fed(S.Receive));
    QueueStep(RUNNING, Fed(S.Receive), S.CodecFrame, RUNNING, Fed(S.Compare));
  }

  // ------------------------------------------------------------------ the picture

  /** With the frame decoded, and the ring and the display at some point. */
  function Playing(r: R.Ring, made: map<nat, Made>, view: View, passes: seq<Pass>): Player {
    Player(S.State(RUNNING, S.Reading, 0, Fed(S.Compare), false, map[1 := 0]), r, true, made, view, passes)
  }

  const NOTHING_MADE: map<nat, Made> := map[]
  const MADE: map<nat, Made> := map[0 := Made(1, [Entry(PACKET, 1)])]

  function Slots(first: R.Slot): seq<R.Slot> {
    [first, R.Torn, R.Torn]
  }

  /** The frame is being queued. */
  function Queueing(pc: R.ProducerPc, first: R.Slot, moved: nat): R.Ring
    requires moved <= 1
  {
    R.Ring(Slots(first), moved, 0, 0, true, 0, false, pc, R.Looking, 0, moved, 0, 0)
  }

  /** The frame is queued. */
  function Queued(pc: R.ConsumerPc, shown: int): R.Ring {
    R.Ring(Slots(R.Whole(0)), 1, 0, 1, true, shown, false, R.Asking, pc, 1, 1, 0, 0)
  }

  lemma RingStep(r: R.Ring, m: map<nat, Made>, a: R.Action, t: R.Ring, n: map<nat, Made>)
    requires Leads(AT_START, Playing(r, m, Unseen, [])) && Inv(Playing(r, m, Unseen, []))
    requires Produces(a) && R.Enabled(r, a) && r.windex < R.MaxSize(r) && r.rindex < R.MaxSize(r)
    requires R.Do(r, a) == t && n == if a.WriteRest? then m[r.written := Made(1, [Entry(PACKET, 1)])] else m
    ensures Leads(AT_START, Playing(t, n, Unseen, [])) && Inv(Playing(t, n, Unseen, []))
  {
    hide Leads, Inv, R.Do, R.Enabled;
    LeadsOn(AT_START, Playing(r, m, Unseen, []), Produce(a), Playing(t, n, Unseen, []));
  }

  /** The frame is written, and then counted. */
  lemma FrameIsWritten()
    ensures Leads(AT_START, Playing(Queueing(R.Ready, R.Whole(0), 0), MADE, Unseen, []))
    ensures Inv(Playing(Queueing(R.Ready, R.Whole(0), 0), MADE, Unseen, []))
  {
    hide Leads, Inv;
    PacketIsFed();
    assert EMPTY_RING.slots == Slots(R.Torn);
    var m := NOTHING_MADE;
    RingStep(Queueing(R.Asking, R.Torn, 0), m, R.AskRoom, Queueing(R.Waited, R.Torn, 0), m);
    RingStep(Queueing(R.Waited, R.Torn, 0), m, R.TakeSlot, Queueing(R.Claimed, R.Torn, 0), m);
    RingStep(Queueing(R.Claimed, R.Torn, 0), m, R.WriteSome, Queueing(R.Halfway, R.Torn, 0), m);
    RingStep(Queueing(R.Halfway, R.Torn, 0), m, R.WriteRest, Queueing(R.Ready, R.Whole(0), 0), MADE);
  }

  lemma FrameIsQueued()
    ensures Leads(AT_START, Playing(Queued(R.Looking, 0), MADE, Unseen, []))
    ensures Inv(Playing(Queued(R.Looking, 0), MADE, Unseen, []))
  {
    hide Leads, Inv;
    FrameIsWritten();
    var m := MADE;
    RingStep(Queueing(R.Ready, R.Whole(0), 0), m, R.MoveWindex, Queueing(R.PushedIndex, R.Whole(0), 1), m);
    RingStep(Queueing(R.PushedIndex, R.Whole(0), 1), m, R.RaiseSize, Queued(R.Looking, 0), m);
  }

  const SEEN: View := Seen(0, 1, 1, 0, true)

  /** The run ends with the packet at the codec, once, and its frame shown. */
  lemma FrameIsShown()
    ensures Leads(AT_START, Playing(Queued(R.Looking, 1), MADE, Unseen, [Pass(SEEN, true)]))
    ensures Playing(Queued(R.Looking, 1), MADE, Unseen, [Pass(SEEN, true)]).seek.decoder.fed == [Entry(PACKET, 1)]
  {
    hide Leads, Inv;
    FrameIsQueued();
    LeadsOn(AT_START, Playing(Queued(R.Looking, 0), MADE, Unseen, []), Look,
            Playing(Queued(R.Peeking, 0), MADE, Unseen, []));
    LeadsOn(AT_START, Playing(Queued(R.Peeking, 0), MADE, Unseen, []), CompareSerial,
            Playing(Queued(R.Peeking, 0), MADE, SEEN, []));
    LeadsOn(AT_START, Playing(Queued(R.Peeking, 0), MADE, SEEN, []), GoPast(true),
            Playing(Queued(R.Looking, 1), MADE, Unseen, [Pass(SEEN, true)]));
  }
}
