/** That the protocol around the packet queue delivers: every packet put reaches the codec, once and in
    order, unless a seek drops it; and the codec is not asked for frames of an older serial for long. */
module SeekDelivery {
  import opened PacketQueue
  import opened SeekProtocol

  // ------------------------------------------------------------------ what was put

  /** The media packets put since the newest flush packet; whether the queue was emptied since; whether it is
      stopped; and how many seeks there were. */
  datatype Tally = Tally(log: seq<Packet>, emptied: bool, stopped: bool, seeks: nat)

  const NOTHING_PUT: Tally := Tally([], false, true, 0)

  function Note(t: Tally, a: Action): Tally {
    match a
    case PutMedia(p) => if t.stopped then t else t.(log := t.log + [p])
    case PutFlush => if t.stopped then t else t.(log := [], emptied := false)
    case StartStream => t.(log := [], emptied := false, stopped := false)
    case SeekFile => t.(seeks := t.seeks + 1)
    case FlushQueue => t.(emptied := true)
    case CloseStream => t.(emptied := true)
    case AbortQueue => t.(stopped := true)
    case _ => t
  }

  function NoteAll(t: Tally, actions: seq<Action>): Tally
    decreases |actions|
  {
    if actions == [] then t else NoteAll(Note(t, actions[0]), actions[1..])
  }

  /** Every action is enabled in its turn. */
  predicate Legal(s: State, actions: seq<Action>)
    requires Inv(s)
    decreases |actions|
  {
    actions == [] ||
    (Enabled(s, actions[0]) && (StepKeepsInv(s, actions[0]); Legal(Do(s, actions[0]), actions[1..])))
  }

  // ------------------------------------------------------------------ where it is

  function Medias(ps: seq<Packet>): (ms: seq<Packet>) {
    if ps == [] then [] else (if ps[0].Media? then [ps[0]] else []) + Medias(ps[1..])
  }

  function Packets(entries: seq<Entry>): (ps: seq<Packet>)
    ensures |ps| == |entries|
  {
    seq(|entries|, i requires 0 <= i < |entries| => entries[i].pkt)
  }

  /** What the codec has taken under the newest serial. */
  function Given(s: State): seq<Packet> {
    if s.decoder.lastFlush == s.queue.serial then Packets(s.decoder.fed) else []
  }

  /** What the decoder has in hand under it. */
  function InHand(s: State): seq<Packet> {
    if s.decoder.pktSerial == s.queue.serial then s.decoder.pending + Medias(s.decoder.cur) else []
  }

  function Waiting(s: State): seq<Packet> {
    Medias(Packets(s.queue.entries))
  }

  /** Nothing is lost, nothing comes twice, nothing changes places. */
  predicate Complete(s: State, t: Tally) {
    && s.queue.abort == t.stopped && s.epoch == t.seeks
    && (!t.emptied ==> t.log == Given(s) + InHand(s) + Waiting(s))
  }

  /** The flush packet of the newest serial: waiting, in hand, or processed. */
  predicate FlushIsOne(s: State) {
    && (forall i, k :: 0 <= i < k < |s.queue.entries| ==>
          !(s.queue.entries[i] == s.queue.entries[k] == Entry(Flush, s.queue.serial)))
    && (Acquired(s) ==> forall i :: 0 <= i < |s.queue.entries| ==> s.queue.entries[i] != Entry(Flush, s.queue.serial))
    && (s.decoder.cur == [Flush] && s.decoder.pktSerial == s.queue.serial ==>
          s.decoder.lastFlush != s.queue.serial)
    && (s.decoder.cur != [] ==> s.decoder.pending == [])
  }

  lemma {:induction false} MediasAppend(ps: seq<Packet>, qs: seq<Packet>)
    ensures Medias(ps + qs) == Medias(ps) + Medias(qs)
    decreases |ps|
  {
    if ps == [] {
      assert ps + qs == qs;
    } else {
      assert (ps + qs)[1..] == ps[1..] + qs && (ps + qs)[0] == ps[0];
      MediasAppend(ps[1..], qs);
      var first := if ps[0].Media? then [ps[0]] else [];
      assert first + (Medias(ps[1..]) + Medias(qs)) == (first + Medias(ps[1..])) + Medias(qs);
    }
  }

  lemma {:induction false} NoMedias(ps: seq<Packet>)
    requires forall i :: 0 <= i < |ps| ==> ps[i].Flush?
    ensures Medias(ps) == []
  {
    if ps != [] {
      NoMedias(ps[1..]);
    }
  }

  lemma PutWaits(q: Queue, p: Packet)
    ensures Medias(Packets(Put(q, p).entries)) == Medias(Packets(q.entries)) + if q.abort then [] else Medias([p])
  {
    if !q.abort {
      var e := Put(q, p).entries[|q.entries|];
      assert Packets(q.entries + [e]) == Packets(q.entries) + [p];
      MediasAppend(Packets(q.entries), [p]);
    }
  }

  lemma TakeWaits(q: Queue)
    requires q.entries != []
    ensures Medias(Packets(q.entries)) == Medias([q.entries[0].pkt]) + Medias(Packets(q.entries[1..]))
  {
    assert Packets(q.entries) == [q.entries[0].pkt] + Packets(q.entries[1..]);
    MediasAppend([q.entries[0].pkt], Packets(q.entries[1..]));
  }

  // ------------------------------------------------------------------ step by step

  lemma FlushTakenOnce(s: State, a: Action)
    requires Inv(s) && Enabled(s, a) && FlushIsOne(s) && (a.FetchPacket? || a.FeedCodec?)
    ensures FlushIsOne(Do(s, a))
  {
    hide FlushBefore, Dated, ReaderInv;
  }

  lemma FlushStaysOne(s: State, a: Action)
    requires Inv(s) && Enabled(s, a) && FlushIsOne(s)
    ensures FlushIsOne(Do(s, a))
  {
    hide FlushBefore, Dated;
    if a.FetchPacket? || a.FeedCodec? {
      FlushTakenOnce(s, a);
    }
  }

  lemma MediasOne(p: Packet)
    ensures Medias([p]) == if p.Media? then [p] else []
    ensures Medias([]) == []
  {
    assert [p][1..] == [];
  }

  /** A decoder about to fetch has nothing in hand but what is pending. */
  lemma FetchFacts(s: State)
    requires Inv(s) && Enabled(s, FetchPacket)
    ensures HandsFull(s.decoder) && s.decoder.cur == []
    ensures s.decoder.lastFlush <= s.decoder.pktSerial <= s.queue.serial
    ensures s.decoder.pending != [] ==> s.decoder.pending == [s.decoder.pending[0]] && s.decoder.pending[0].Media?
    ensures s.queue.entries != [] ==>
              var e := s.queue.entries[0];
              s.decoder.pktSerial <= e.serial <= s.queue.serial && (e.pkt.Media? ==> e.serial == s.queue.serial)
  {
    hide FlushBefore, Acquired, Dated;
  }

  lemma PendingComplete(s: State, t: Tally)
    requires Inv(s) && Enabled(s, FetchPacket) && Complete(s, t) && s.decoder.pending != []
    ensures Complete(Do(s, FetchPacket), t)
  {
    hide Inv, Packets, Medias;
    FetchFacts(s);
    MediasOne(s.decoder.pending[0]);
    assert s.decoder.pending + [] == s.decoder.pending && [] + s.decoder.pending == s.decoder.pending;
    assert InHand(Do(s, FetchPacket)) == InHand(s);
  }

  /** The first entry is in hand, and the others wait. */
  lemma FirstTaken(s: State)
    requires Inv(s) && Enabled(s, FetchPacket) && s.decoder.pending == [] && Take(s.queue, true).Got?
    ensures s.queue.entries != [] && HandsFull(s.decoder)
    ensures var e, u := s.queue.entries[0], Do(s, FetchPacket);
            && u.queue == s.queue.(entries := s.queue.entries[1..]) && u.decoder.lastFlush == s.decoder.lastFlush
            && u.decoder.fed == s.decoder.fed && u.decoder.pending == []
            && u.decoder.cur == [e.pkt] && u.decoder.pktSerial == e.serial && u.epoch == s.epoch
  {
    hide QueueInv, ReaderInv;
  }

  lemma Regroup(x: seq<Packet>, y: seq<Packet>, z: seq<Packet>)
    ensures x + [] + (y + z) == x + y + z && x + (y + z) == x + y + z
  {
  }

  lemma FirstComplete(s: State, t: Tally)
    requires Inv(s) && Enabled(s, FetchPacket) && Complete(s, t)
    requires s.decoder.pending == [] && Take(s.queue, true).Got?
    ensures Complete(Do(s, FetchPacket), t)
  {
    hide Inv, Packets, Medias, Do, Enabled, Take;
    FetchFacts(s);
    FirstTaken(s);
    var e, u := s.queue.entries[0], Do(s, FetchPacket);
    TakeWaits(s.queue);
    MediasOne(e.pkt);
    assert [] + Medias([e.pkt]) == Medias([e.pkt]);
    Regroup(Given(s), Medias([e.pkt]), Waiting(u));
  }

  lemma NothingFetched(s: State, t: Tally)
    requires Inv(s) && Enabled(s, FetchPacket) && Complete(s, t)
    requires s.decoder.pending == [] && !Take(s.queue, true).Got?
    ensures Complete(Do(s, FetchPacket), t)
  {
  }

  lemma FetchComplete(s: State, t: Tally)
    requires Inv(s) && Enabled(s, FetchPacket) && Complete(s, t)
    ensures Complete(Do(s, FetchPacket), t)
  {
    hide Inv, Complete, Enabled;
    if s.decoder.pending != [] {
      PendingComplete(s, t);
    } else if Take(s.queue, true).Got? {
      FirstComplete(s, t);
    } else {
      NothingFetched(s, t);
    }
  }

  lemma FlushFed(s: State, kept: bool, t: Tally)
    requires Inv(s) && Enabled(s, FeedCodec(kept)) && FlushIsOne(s) && Complete(s, t) && s.decoder.cur[0].Flush?
    ensures Complete(Do(s, FeedCodec(kept)), t)
  {
    MediasOne(Flush);
    assert s.decoder.cur == [Flush] && s.decoder.pending == [] && Packets([]) == [];
  }

  lemma MediaTaken(s: State, kept: bool)
    requires Inv(s) && Enabled(s, FeedCodec(kept)) && FlushIsOne(s) && s.decoder.cur[0].Media?
    ensures HandsFull(s.decoder) && s.decoder.cur == [s.decoder.cur[0]] && s.decoder.pending == []
    ensures s.decoder.lastFlush == s.decoder.pktSerial
    ensures var d, u := s.decoder, Do(s, FeedCodec(kept));
            && u.queue == s.queue && u.epoch == s.epoch && u.decoder.cur == [] && u.decoder.pktSerial == d.pktSerial
            && u.decoder.lastFlush == d.lastFlush && u.decoder.pending == (if kept then d.cur else [])
            && u.decoder.fed == if kept then d.fed else d.fed + [Entry(d.cur[0], d.pktSerial)]
  {
    hide QueueInv, ReaderInv;
  }

  /** What is handed over goes from the hand to the codec. */
  lemma HandedOver(s: State, kept: bool)
    requires Inv(s) && Enabled(s, FeedCodec(kept)) && FlushIsOne(s) && s.decoder.cur[0].Media?
    ensures HandsFull(s.decoder)
    ensures var u := Do(s, FeedCodec(kept));
            Given(u) + InHand(u) == Given(s) + InHand(s) && u.queue == s.queue && u.epoch == s.epoch
  {
    hide Inv, Do, FlushIsOne, Enabled, Medias, Packets;
    MediaTaken(s, kept);
    var d, p := s.decoder, s.decoder.cur[0];
    MediasOne(p);
    assert [] + [p] == [p] && [p] + [] == [p];
    PacketsSnoc(d.fed, Entry(p, d.pktSerial));
    assert (Packets(d.fed) + [p]) + [] == Packets(d.fed) + [p];
  }

  lemma PacketsSnoc(entries: seq<Entry>, e: Entry)
    ensures Packets(entries + [e]) == Packets(entries) + [e.pkt]
  {
  }

  lemma MediaFed(s: State, kept: bool, t: Tally)
    requires Inv(s) && Enabled(s, FeedCodec(kept)) && FlushIsOne(s) && Complete(s, t) && s.decoder.cur[0].Media?
    ensures Complete(Do(s, FeedCodec(kept)), t)
  {
    hide Inv, Do, FlushIsOne, Enabled, Medias, Packets, Given, InHand;
    HandedOver(s, kept);
  }

  lemma FeedComplete(s: State, kept: bool, t: Tally)
    requires Inv(s) && Enabled(s, FeedCodec(kept)) && FlushIsOne(s) && Complete(s, t)
    ensures Complete(Do(s, FeedCodec(kept)), t)
  {
    if s.decoder.cur[0].Flush? {
      FlushFed(s, kept, t);
    } else {
      MediaFed(s, kept, t);
    }
  }

  lemma PutComplete(s: State, p: Packet, t: Tally)
    requires Inv(s) && Enabled(s, PutMedia(p)) && Complete(s, t)
    ensures Complete(Do(s, PutMedia(p)), Note(t, PutMedia(p)))
  {
    hide Inv, Medias, Packets;
    assert HandsFull(s.decoder) by { Handy(s); }
    PutWaits(s.queue, p);
    MediasOne(p);
    PutBehind(s.queue, p);
    assert (Given(s) + InHand(s) + Waiting(s)) + [p] == Given(s) + InHand(s) + (Waiting(s) + [p]);
  }

  lemma Handy(s: State)
    requires Inv(s)
    ensures HandsFull(s.decoder)
  {
  }

  lemma PutBehind(q: Queue, p: Packet)
    requires p.Media?
    ensures Put(q, p).serial == q.serial && Put(q, p).abort == q.abort && (q.abort ==> Put(q, p) == q)
  {
  }

  lemma FlushComplete(s: State, t: Tally)
    requires Inv(s) && Enabled(s, PutFlush) && Complete(s, t)
    ensures Complete(Do(s, PutFlush), Note(t, PutFlush))
  {
    PutWaits(s.queue, Flush);
    NoMedias(Packets(s.queue.entries));
  }

  lemma StartComplete(s: State, t: Tally)
    requires Inv(s) && Enabled(s, StartStream) && Complete(s, t)
    ensures Complete(Do(s, StartStream), Note(t, StartStream))
  {
    PutWaits(s.queue.(abort := false), Flush);
    NoMedias(Packets(s.queue.entries));
  }

  lemma OtherComplete(s: State, a: Action, t: Tally)
    requires Inv(s) && Enabled(s, a) && Complete(s, t)
    requires !a.FetchPacket? && !a.FeedCodec? && !a.PutMedia? && !a.PutFlush? && !a.StartStream?
    ensures Complete(Do(s, a), Note(t, a))
  {
    hide Packets;
  }

  lemma StepComplete(s: State, a: Action, t: Tally)
    requires Inv(s) && Enabled(s, a) && FlushIsOne(s) && Complete(s, t)
    ensures Complete(Do(s, a), Note(t, a))
  {
    hide Inv, Enabled, Do, FlushIsOne, Complete;
    match a
    case FetchPacket => FetchComplete(s, t);
    case FeedCodec(kept) => FeedComplete(s, kept, t);
    case PutMedia(p) => PutComplete(s, p, t);
    case PutFlush => FlushComplete(s, t);
    case StartStream => StartComplete(s, t);
    case _ => OtherComplete(s, a, t);
  }

  lemma {:induction false} RunComplete(s: State, actions: seq<Action>, t: Tally)
    requires Inv(s) && FlushIsOne(s) && Complete(s, t) && Legal(s, actions)
    ensures Complete(Run(s, actions), NoteAll(t, actions))
    decreases |actions|
  {
    hide Complete, FlushIsOne, Note, Do, Enabled, QueueInv, ReaderInv;
    if actions != [] {
      StepKeepsInv(s, actions[0]);
      StepComplete(s, actions[0], t);
      FlushStaysOne(s, actions[0]);
      RunComplete(Do(s, actions[0]), actions[1..], Note(t, actions[0]));
    }
  }

  /** Over any run: unless the queue was emptied, the media packets put since the newest flush packet are
      those the codec has taken under its serial, then what the decoder has in hand, then what waits: none
      lost, none twice, all in order. And epochs count seeks. */
  lemma NothingIsLost(actions: seq<Action>)
    requires Inv(INITIAL) && Legal(INITIAL, actions)
    ensures var s, t := Run(INITIAL, actions), NoteAll(NOTHING_PUT, actions);
            && s.epoch == t.seeks
            && (!t.emptied ==> t.log == Given(s) + InHand(s) + Waiting(s))
  {
    hide Legal, Run, NoteAll;
    assert Complete(INITIAL, NOTHING_PUT) by {
      assert Packets([]) == [];
    }
    RunComplete(INITIAL, actions, NOTHING_PUT);
  }

  // ------------------------------------------------------------------ answers of an older serial

  /** No answer is stale yet; or one was, and the codec is asked for none of that serial again. */
  predicate Warned(s: State, n: nat) {
    n == 0 || (n == 1 && (s.decoder.pc.Receive? ==> s.decoder.pktSerial == s.queue.serial))
  }

  function StaleNext(s: State, a: Action, n: nat): nat
    requires Inv(s) && Enabled(s, a)
  {
    if Do(s, a).queue.serial != s.queue.serial then 0
    else if (a.CodecFrame? || a.CodecEnd?) && s.decoder.pktSerial != s.queue.serial then n + 1
    else n
  }

  /** Frames, or ends of the stream, the codec has given under an older serial since the queue's last changed. */
  function Stale(s: State, actions: seq<Action>, n: nat): nat
    requires Inv(s) && Legal(s, actions)
    decreases |actions|
  {
    if actions == [] then n
    else
      StepKeepsInv(s, actions[0]);
      Stale(Do(s, actions[0]), actions[1..], StaleNext(s, actions[0], n))
  }

  lemma WarnedNext(s: State, a: Action, n: nat)
    requires Inv(s) && Enabled(s, a) && Warned(s, n)
    ensures Warned(Do(s, a), StaleNext(s, a, n))
  {
    hide QueueInv, ReaderInv;
  }

  lemma {:induction false} StaleFrom(s: State, actions: seq<Action>, n: nat)
    requires Inv(s) && Legal(s, actions) && Warned(s, n)
    ensures Stale(s, actions, n) <= 1
    decreases |actions|
  {
    hide Do, Enabled, QueueInv, ReaderInv, StaleNext;
    if actions != [] {
      StepKeepsInv(s, actions[0]);
      WarnedNext(s, actions[0], n);
      StaleFrom(Do(s, actions[0]), actions[1..], StaleNext(s, actions[0], n));
    }
  }

  /** After the queue's serial has changed at most one more frame, or end of the stream, of an older serial
      comes from the codec. */
  lemma AtMostOneStale(actions: seq<Action>)
    requires Inv(INITIAL) && Legal(INITIAL, actions)
    ensures Stale(INITIAL, actions, 0) <= 1
  {
    StaleFrom(INITIAL, actions, 0);
  }

  // ------------------------------------------------------------------ going on, and ending

  /** From wherever the reader is reading, a seek can go through: then the queue holds the flush packet of a
      new serial and nothing else, and the reader reads on one seek further. */
  lemma SeekGoesThrough(s: State) returns (t: State)
    requires Inv(s) && s.reader.Reading? && !s.queue.abort
    ensures Legal(s, [SeekFile, FlushQueue, PutFlush]) && t == Run(s, [SeekFile, FlushQueue, PutFlush])
    ensures t.reader.Reading? && t.epoch == s.epoch + 1 && t.decoder == s.decoder && !t.queue.abort
    ensures t.queue.serial == s.queue.serial + 1 && t.queue.entries == [Entry(Flush, t.queue.serial)]
    ensures t.queue.serial in t.epochs && t.epochs[t.queue.serial] == t.epoch
  {
    var a, b := Then(s, SeekFile), Then(Do(s, SeekFile), FlushQueue);
    t := Then(b, PutFlush);
    RunThree(s, SeekFile, FlushQueue, PutFlush);
  }

  /** Stopped, a seek passes the stream over: only the reader's position has changed. */
  lemma SeekPassesStopped(s: State) returns (t: State)
    requires Inv(s) && s.reader.Reading? && s.queue.abort
    ensures Legal(s, [SeekFile, SkipStream]) && t == Run(s, [SeekFile, SkipStream])
    ensures t == s.(epoch := s.epoch + 1)
  {
    var a := Then(s, SeekFile);
    t := Then(a, SkipStream);
    RunTwo(s, SeekFile, SkipStream);
  }

  /** Asked for a frame the codec may answer in four ways. After a frame or the end serials are compared before
      it is asked again, after an error it is asked at once, and without a frame a packet is fetched. */
  lemma AnswerLeads(s: State, a: Action)
    requires Inv(s) && s.decoder.pc.Receive? && (a.CodecFrame? || a.CodecEnd? || a.CodecError? || a.CodecAgain?)
    ensures Enabled(s, a) && HandsFull(s.decoder)
    ensures var t := Do(s, a);
            && t == s.(decoder := s.decoder.(pc := t.decoder.pc))
            && (Enabled(t, CompareSerials) <==> a.CodecFrame? || a.CodecEnd?)
            && (Enabled(t, FetchPacket) ==> a.CodecAgain?)
            && (Enabled(t, CodecFrame) <==> a.CodecError?)
            && (a.CodecAgain? && s.queue.entries != [] ==> Enabled(t, FetchPacket))
  {
  }

  /** One step. */
  function Then(s: State, a: Action): (t: State)
    requires Inv(s) && Enabled(s, a)
    ensures Inv(t)
  {
    StepKeepsInv(s, a);
    Do(s, a)
  }

  lemma RunNone(s: State)
    requires Inv(s)
    ensures Legal(s, []) && Run(s, []) == s
  {
  }

  lemma RunOne(s: State, a: Action, rest: seq<Action>)
    requires Inv(s) && Enabled(s, a)
    ensures Legal(s, [a] + rest) <==> Legal(Then(s, a), rest)
    ensures Run(s, [a] + rest) == Run(Then(s, a), rest)
  {
    hide Do, Enabled, QueueInv, ReaderInv;
    assert ([a] + rest)[1..] == rest;
  }

  lemma RunTwo(s: State, a: Action, b: Action)
    requires Inv(s) && Enabled(s, a) && Enabled(Then(s, a), b)
    ensures Legal(s, [a, b]) && Run(s, [a, b]) == Then(Then(s, a), b)
  {
    hide Do, Enabled, Inv, Run, Legal;
    RunOne(Then(s, a), b, []);
    RunOne(s, a, [b]);
    RunNone(Then(Then(s, a), b));
    assert [b] == [b] + [] && [a, b] == [a] + [b];
  }

  lemma RunThree(s: State, a: Action, b: Action, c: Action)
    requires Inv(s) && Enabled(s, a) && Enabled(Then(s, a), b) && Enabled(Then(Then(s, a), b), c)
    ensures Legal(s, [a, b, c]) && Run(s, [a, b, c]) == Then(Then(Then(s, a), b), c)
  {
    hide Do, Enabled, Inv, Run, Legal;
    RunOne(Then(Then(s, a), b), c, []);
    RunOne(Then(s, a), b, [c]);
    RunOne(s, a, [b, c]);
    RunNone(Then(Then(Then(s, a), b), c));
    assert [c] == [c] + [] && [b, c] == [b] + [c] && [a, b, c] == [a] + [b, c];
  }

  lemma GoneStep(s: State, a: Action)
    requires Inv(s) && Enabled(s, a) && (s.decoder.pc.Gone? ==> s.queue.abort)
    ensures var t := Do(s, a); t.decoder.pc.Gone? ==> t.queue.abort
  {
    hide QueueInv, ReaderInv;
  }

  /** The decoder leaves its thread only when the queue is stopped. */
  lemma {:induction false} GoneOnlyWhenStopped(s: State, actions: seq<Action>)
    requires Inv(s) && (s.decoder.pc.Gone? ==> s.queue.abort)
    ensures var t := Run(s, actions); t.decoder.pc.Gone? ==> t.queue.abort
    decreases |actions|
  {
    hide Do, Enabled, QueueInv, ReaderInv;
    if actions != [] && Enabled(s, actions[0]) {
      StepKeepsInv(s, actions[0]);
      GoneStep(s, actions[0]);
      GoneOnlyWhenStopped(Do(s, actions[0]), actions[1..]);
    }
  }

  /** How far the decoder is from leaving, once the queue is stopped. */
  function ToLeave(d: Decoder): nat {
    match d.pc
    case Gone => 0
    case Receive => 1
    case Fetch => if d.pending != [] then 6 else 1
    case Compare => if d.pending != [] then 7 else 2
    case Feed => 3
    case Recheck => 5
  }

  /** What brings a stopped decoder nearer to leaving. */
  function TowardsLeaving(d: Decoder): Action {
    match d.pc
    case Receive => SeeAbort
    case Fetch => FetchPacket
    case Compare => CompareSerials
    case Feed => FeedCodec(false)
    case _ => RecheckSerial
  }

  lemma NearerToLeaving(s: State)
    requires Inv(s) && s.queue.abort && FlushIsOne(s) && !s.decoder.pc.Gone?
    ensures Enabled(s, TowardsLeaving(s.decoder))
    ensures var t := Then(s, TowardsLeaving(s.decoder)); t.queue.abort && ToLeave(t.decoder) < ToLeave(s.decoder)
  {
    hide QueueInv, ReaderInv, FlushBefore;
  }

  /** Stopped, it can leave from anywhere. */
  lemma {:induction false} StoppedCanLeave(s: State) returns (actions: seq<Action>)
    requires Inv(s) && s.queue.abort && FlushIsOne(s)
    ensures Legal(s, actions) && Run(s, actions).decoder.pc.Gone?
    decreases ToLeave(s.decoder)
  {
    hide Inv, Do, Enabled, FlushIsOne, ToLeave, TowardsLeaving;
    if s.decoder.pc.Gone? {
      actions := [];
      RunNone(s);
    } else {
      var a := TowardsLeaving(s.decoder);
      NearerToLeaving(s);
      FlushStaysOne(s, a);
      var rest := StoppedCanLeave(Then(s, a));
      actions := [a] + rest;
      RunOne(s, a, rest);
    }
  }

  /** A stream that was stopped and left can be closed and opened again: under a new serial, with a new
      decoder. */
  lemma Reopens(s: State)
    requires Inv(s) && s.queue.abort && s.decoder.pc.Gone? && !s.closed
    ensures Enabled(s, CloseStream) && Enabled(Then(s, CloseStream), StartStream)
    ensures var t := Then(Then(s, CloseStream), StartStream);
            && !t.closed && !t.queue.abort && t.queue.serial == s.queue.serial + 1
            && t.queue.entries == [Entry(Flush, t.queue.serial)]
            && t.decoder.pc.Compare? && t.decoder.fed == [] && t.decoder.pending == [] && t.decoder.cur == []
  {
  }
}
