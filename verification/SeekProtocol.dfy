/** The reader, one decoder and the main thread around one packet queue, as interleaved atomic steps:
    each section under the queue's mutex is one step, and so is each unlocked read of the queue. */
module SeekProtocol {
  import opened PacketQueue

  /** Where the reader is: reading, between a seek and the queue's flush, or between the flush and the
      put of the flush packet. */
  datatype ReaderPc = Reading | Sought | Flushed

  /** Where the decoder is in its loop: comparing serials, asking the codec for a frame, fetching a
      packet, rechecking the serial, handing the packet over, or out of its thread. */
  datatype DecoderPc = Compare | Receive | Fetch | Recheck | Feed | Gone

  datatype Decoder = Decoder(
    pc: DecoderPc,
    pktSerial: int,
    pending: seq<Packet>,  // at most one packet the codec did not take
    cur: seq<Packet>,      // the packet in hand, if any
    lastFlush: int,        // serial of the last flush packet processed, -1 if none
    fed: seq<Entry>)       // packets given to the codec since then

  /** `epochs` records, for the model only, how many seeks preceded each serial. */
  datatype State = State(
    queue: Queue, reader: ReaderPc, epoch: nat, decoder: Decoder, closed: bool, epochs: map<int, nat>)

  datatype Action =
    | SeekFile | FlushQueue | SkipStream | PutFlush | PutMedia(pkt: Packet)
    | CompareSerials | CodecFrame | CodecAgain | CodecError | CodecEnd | SeeAbort
    | FetchPacket | RecheckSerial | FeedCodec(kept: bool)
    | AbortQueue | CloseStream | StartStream

  const NEW_DECODER: Decoder := Decoder(Compare, -1, [], [], -1, [])

  /** Before the stream is opened: the queue aborted and empty, no decoder thread. */
  const INITIAL: State := State(EMPTY_QUEUE, Reading, 0, NEW_DECODER.(pc := Gone), true, map[])

  predicate Enabled(s: State, a: Action) {
    match a
    // the reader thread
    case SeekFile => s.reader.Reading?
    case FlushQueue => s.reader.Sought?
    case SkipStream => s.reader.Sought? && s.queue.abort  // the stream index is negative only when stopped
    case PutFlush => s.reader.Flushed?
    case PutMedia(p) => s.reader.Reading? && p.Media? && p.epoch == s.epoch
    // the decoder thread
    case CompareSerials => s.decoder.pc.Compare?
    case CodecFrame => s.decoder.pc.Receive?
    case CodecAgain => s.decoder.pc.Receive?
    case CodecError => s.decoder.pc.Receive?
    case CodecEnd => s.decoder.pc.Receive?
    case SeeAbort => s.decoder.pc.Receive? && s.queue.abort
    case FetchPacket => s.decoder.pc.Fetch? && (s.decoder.pending != [] || !Take(s.queue, true).MustWait?)
    case RecheckSerial => s.decoder.pc.Recheck?
    case FeedCodec(kept) => s.decoder.pc.Feed?
    // the main thread: stop the stream, close it once the decoder thread is joined, open it again
    case AbortQueue => !s.closed
    case CloseStream => s.queue.abort && s.decoder.pc.Gone? && !s.closed
    case StartStream => s.closed
  }

  /** The flush packet's serial belongs to the reader's position at that moment. */
  function WithEpoch(s: State, q: Queue): State {
    s.(queue := q, epochs := s.epochs[q.serial := s.epoch])
  }

  function FetchStep(s: State): State {
    var d := s.decoder;
    if d.pending != [] then s.(decoder := d.(pc := Recheck, cur := d.pending, pending := []))
    else
      match Take(s.queue, true)
      case Got(e) =>
        s.(queue := Rest(s.queue), decoder := d.(pc := Recheck, cur := [e.pkt], pktSerial := e.serial))
      case _ => s.(decoder := d.(pc := Gone))
  }

  /** The codec takes a media packet, or it is kept to be offered again. */
  function FeedStep(d: Decoder, kept: bool): Decoder
    requires d.cur != []
  {
    var p := d.cur[0];
    if p.Flush? then d.(pc := Compare, cur := [], lastFlush := d.pktSerial, fed := [])
    else if kept then d.(pc := Compare, cur := [], pending := [p])
    else d.(pc := Compare, cur := [], fed := d.fed + [Entry(p, d.pktSerial)])
  }

  /** The decoder holds a packet exactly while rechecking or feeding. */
  predicate HandsFull(d: Decoder) {
    (d.pc.Recheck? || d.pc.Feed?) <==> |d.cur| == 1
  }

  function Do(s: State, a: Action): State
    requires Enabled(s, a) && HandsFull(s.decoder)
  {
    var d := s.decoder;
    match a
    case SeekFile => s.(reader := Sought, epoch := s.epoch + 1)
    case FlushQueue => s.(reader := Flushed, queue := Drain(s.queue))
    case SkipStream => s.(reader := Reading)
    case PutFlush =>
      if s.queue.abort then s.(reader := Reading) else WithEpoch(s.(reader := Reading), Put(s.queue, Flush))
    case PutMedia(p) => s.(queue := Put(s.queue, p))
    case CompareSerials => s.(decoder := d.(pc := if s.queue.serial == d.pktSerial then Receive else Fetch))
    case CodecFrame => s.(decoder := d.(pc := Compare))
    case CodecAgain => s.(decoder := d.(pc := Fetch))
    case CodecError => s
    case CodecEnd => s.(decoder := d.(pc := Compare))
    case SeeAbort => s.(decoder := d.(pc := Gone))
    case FetchPacket => FetchStep(s)
    case RecheckSerial =>
      if s.queue.serial != d.pktSerial then s.(decoder := d.(pc := Fetch, cur := []))
      else s.(decoder := d.(pc := Feed))
    case FeedCodec(kept) => s.(decoder := FeedStep(d, kept))
    case AbortQueue => s.(queue := Abort(s.queue))
    case CloseStream => s.(queue := Drain(s.queue), closed := true)
    case StartStream => WithEpoch(s.(closed := false, decoder := NEW_DECODER), Start(s.queue))
  }

  // ------------------------------------------------------------------ the invariant

  /** The flush packet of the newest serial has been taken and not been dropped. */
  predicate Acquired(s: State) {
    || s.decoder.lastFlush == s.queue.serial
    || (s.decoder.cur == [Flush] && s.decoder.pktSerial == s.queue.serial)
  }

  predicate FlushBefore(s: State, i: nat)
    requires i <= |s.queue.entries|
  {
    exists k :: 0 <= k < i && s.queue.entries[k] == Entry(Flush, s.queue.serial)
  }

  predicate Dated(s: State, p: Packet, serial: int) {
    p.Media? ==> serial in s.epochs && s.epochs[serial] == p.epoch
  }

  /** The queue: media packets all have the newest serial, and its flush packet comes first. */
  predicate QueueInv(s: State) {
    && SerialsOrdered(s.queue)
    && (forall i :: 0 <= i < |s.queue.entries| ==> s.decoder.pktSerial <= s.queue.entries[i].serial)
    && (forall i :: 0 <= i < |s.queue.entries| && s.queue.entries[i].pkt.Media? ==>
          && s.queue.entries[i].serial == s.queue.serial
          && Dated(s, s.queue.entries[i].pkt, s.queue.serial)
          && (Acquired(s) || FlushBefore(s, i)))
  }

  /** The reader: after flushing there is no media packet in the queue; while it reads, the newest
      serial is that of its position and its flush packet is on its way. */
  predicate ReaderInv(s: State) {
    && (s.reader.Flushed? || s.closed ==> forall i :: 0 <= i < |s.queue.entries| ==> s.queue.entries[i].pkt.Flush?)
    && (s.reader.Reading? && !s.queue.abort ==>
          && s.queue.serial in s.epochs && s.epochs[s.queue.serial] == s.epoch
          && (Acquired(s) || FlushBefore(s, |s.queue.entries|)))
    && (s.closed ==> s.queue.abort && s.decoder.pc.Gone?)
    && (forall serial :: serial in s.epochs ==> serial <= s.queue.serial)
    && s.queue.serial >= 0
  }

  predicate DecoderInv(s: State) {
    var d := s.decoder;
    && HandsFull(d) && |d.cur| <= 1 && |d.pending| <= 1
    && -1 <= d.lastFlush <= d.pktSerial <= s.queue.serial
    && (d.pc.Compare? || d.pc.Receive? ==> d.lastFlush == d.pktSerial)
    && (d.pending != [] ==> d.lastFlush == d.pktSerial && d.pending[0].Media? && Dated(s, d.pending[0], d.pktSerial))
    && (d.cur != [] ==> Dated(s, d.cur[0], d.pktSerial))
    && (d.cur != [] && d.cur[0].Media? && (d.pc.Feed? || d.pktSerial == s.queue.serial) ==> d.lastFlush == d.pktSerial)
    && (forall i :: 0 <= i < |d.fed| ==>
          d.fed[i].serial == d.lastFlush && d.fed[i].pkt.Media? && Dated(s, d.fed[i].pkt, d.lastFlush))
  }

  predicate Inv(s: State) {
    QueueInv(s) && ReaderInv(s) && DecoderInv(s)
  }

  /** Taking the first entry moves the others up by one; a taken flush packet counts as acquired. */
  lemma FlushMovesUp(s: State, t: State, i: nat)
    requires QueueInv(s) && s.decoder.pc.Fetch? && s.decoder.pending == [] && Enabled(s, FetchPacket)
    requires HandsFull(s.decoder) && t == FetchStep(s) && t.decoder.pc.Recheck?
    requires i < |s.queue.entries| && (Acquired(s) || FlushBefore(s, i + 1))
    ensures Acquired(t) || FlushBefore(t, i)
  {
  }

  lemma FetchFirstKeepsInv(s: State)
    requires Inv(s) && Enabled(s, FetchPacket) && s.decoder.pending == [] && Take(s.queue, true).Got?
    ensures Inv(Do(s, FetchPacket))
  {
    var t := Do(s, FetchPacket);
    forall i: nat | i < |s.queue.entries| && (Acquired(s) || FlushBefore(s, i + 1))
      ensures Acquired(t) || FlushBefore(t, i)
    {
      FlushMovesUp(s, t, i);
    }
    hide Acquired, FlushBefore;
    assert QueueInv(t);
    assert ReaderInv(t);
    assert DecoderInv(t);
  }

  lemma FetchOtherKeepsInv(s: State)
    requires Inv(s) && Enabled(s, FetchPacket) && (s.decoder.pending != [] || !Take(s.queue, true).Got?)
    ensures Inv(Do(s, FetchPacket))
  {
  }

  lemma FetchKeepsInv(s: State)
    requires Inv(s) && Enabled(s, FetchPacket)
    ensures Inv(Do(s, FetchPacket))
  {
    hide Inv, Enabled, Do, Take;
    if s.decoder.pending == [] && Take(s.queue, true).Got? {
      FetchFirstKeepsInv(s);
    } else {
      FetchOtherKeepsInv(s);
    }
  }

  /** Behind a packet put last, the newest flush packet is where it was. */
  lemma FlushStays(s: State, p: Packet, i: nat, j: nat)
    requires p.Media? && Put(s.queue, p).serial == s.queue.serial
    requires i <= |s.queue.entries| && i <= j <= |Put(s.queue, p).entries|
    requires s.queue.entries <= Put(s.queue, p).entries
    ensures FlushBefore(s, i) ==> FlushBefore(s.(queue := Put(s.queue, p)), j)
  {
    if FlushBefore(s, i) {
      var t := s.(queue := Put(s.queue, p));
      var k :| 0 <= k < i && s.queue.entries[k] == Entry(Flush, s.queue.serial);
      assert t.queue.entries[k] == Entry(Flush, t.queue.serial);
    }
  }

  lemma PutMediaKeepsInv(s: State, p: Packet)
    requires Inv(s) && Enabled(s, PutMedia(p))
    ensures Inv(Do(s, PutMedia(p)))
  {
    hide FlushBefore;
    var t := Do(s, PutMedia(p));
    assert Acquired(t) == Acquired(s);
    forall i: nat | i <= |s.queue.entries|
      ensures FlushBefore(s, i) ==> FlushBefore(t, i)
    {
      FlushStays(s, p, i, i);
    }
    FlushStays(s, p, |s.queue.entries|, |t.queue.entries|);
    assert QueueInv(t);
    assert ReaderInv(t);
    assert DecoderInv(t);
  }

  /** A new serial: the queue holds no media packet and ends in the flush packet just put. */
  lemma PutFlushKeepsInv(s: State)
    requires Inv(s) && Enabled(s, PutFlush)
    ensures Inv(Do(s, PutFlush))
  {
    var t := Do(s, PutFlush);
    if !s.queue.abort {
      PutKeepsSerials(s.queue, Flush);
      var n := |s.queue.entries|;
      assert t.queue.entries[n] == Entry(Flush, t.queue.serial);
      assert FlushBefore(t, n + 1);
    }
  }

  lemma StartKeepsInv(s: State)
    requires Inv(s) && Enabled(s, StartStream)
    ensures Inv(Do(s, StartStream))
  {
    var t := Do(s, StartStream);
    PutKeepsSerials(s.queue.(abort := false), Flush);
    var n := |s.queue.entries|;
    assert t.queue.entries[n] == Entry(Flush, t.queue.serial);
    assert FlushBefore(t, n + 1);
  }

  /** The decoder's steps other than fetching leave the queue alone. */
  lemma DecoderKeepsInv(s: State, a: Action)
    requires Inv(s) && Enabled(s, a)
    requires a.CompareSerials? || a.CodecFrame? || a.CodecAgain? || a.CodecError? || a.CodecEnd? || a.SeeAbort?
          || a.RecheckSerial? || a.FeedCodec?
    ensures Inv(Do(s, a))
  {
    var t := Do(s, a);
    assert t.queue == s.queue && t.epochs == s.epochs;
    assert Acquired(s) ==> Acquired(t);
    forall i: nat | i <= |s.queue.entries|
      ensures FlushBefore(t, i) == FlushBefore(s, i)
    {
    }
    hide FlushBefore, Acquired, SerialsOrdered;
  }

  /** Flushing, stopping and closing only take from the queue. */
  /** The reader on its way to the flush packet. */
  lemma SeekingKeepsInv(s: State, a: Action)
    requires Inv(s) && Enabled(s, a) && (a.SeekFile? || a.FlushQueue? || a.SkipStream?)
    ensures Inv(Do(s, a))
  {
  }

  lemma StoppingKeepsInv(s: State, a: Action)
    requires Inv(s) && Enabled(s, a) && (a.AbortQueue? || a.CloseStream?)
    ensures Inv(Do(s, a))
  {
  }

  lemma StepKeepsInv(s: State, a: Action)
    requires Inv(s) && Enabled(s, a)
    ensures Inv(Do(s, a))
  {
    hide QueueInv, ReaderInv, Enabled, Do;
    match a
    case FetchPacket => FetchKeepsInv(s);
    case PutMedia(p) => PutMediaKeepsInv(s, p);
    case PutFlush => PutFlushKeepsInv(s);
    case StartStream => StartKeepsInv(s);
    case SeekFile => SeekingKeepsInv(s, a);
    case FlushQueue => SeekingKeepsInv(s, a);
    case SkipStream => SeekingKeepsInv(s, a);
    case AbortQueue => StoppingKeepsInv(s, a);
    case CloseStream => StoppingKeepsInv(s, a);
    case _ => DecoderKeepsInv(s, a);
  }

  // ------------------------------------------------------------------ every interleaving

  /** The states along a run of any interleaving; it stops at an action that is not enabled. */
  function Run(s: State, actions: seq<Action>): (t: State)
    requires Inv(s)
    ensures Inv(t)
    decreases |actions|
  {
    if actions == [] || !Enabled(s, actions[0]) then s
    else
      StepKeepsInv(s, actions[0]);
      Run(Do(s, actions[0]), actions[1..])
  }

  lemma InitialInv()
    ensures Inv(INITIAL)
  {
  }

  /** Seek isolation: whatever the threads do, every packet the codec was given since the last flush
      packet carries that flush packet's serial, and all of them were read between the same two
      seeks. */
  lemma SeekIsolation(actions: seq<Action>)
    ensures Inv(INITIAL)
    ensures var d := Run(INITIAL, actions).decoder;
            forall i, k :: 0 <= i < |d.fed| && 0 <= k < |d.fed| ==>
              && d.fed[i].serial == d.lastFlush
              && d.fed[i].pkt.Media? && d.fed[k].pkt.Media?
              && d.fed[i].pkt.epoch == d.fed[k].pkt.epoch
  {
    InitialInv();
    var t := Run(INITIAL, actions);
    assert DecoderInv(t);
  }

  /** The step that hands a packet over: it carries the serial of the last flush packet processed. */
  lemma FedAfterItsFlush(actions: seq<Action>)
    ensures Inv(INITIAL)
    ensures var d := Run(INITIAL, actions).decoder;
            d.pc.Feed? && d.cur[0].Media? ==> d.lastFlush == d.pktSerial
  {
  }

  /** A frame taken from the codec is stamped with the serial of every packet the codec was given. */
  lemma FramesCarryTheirSerial(actions: seq<Action>)
    ensures Inv(INITIAL)
    ensures var d := Run(INITIAL, actions).decoder;
            d.pc.Receive? ==>
              d.pktSerial == d.lastFlush && forall i :: 0 <= i < |d.fed| ==> d.fed[i].serial == d.pktSerial
  {
    InitialInv();
    assert DecoderInv(Run(INITIAL, actions));
  }
}
