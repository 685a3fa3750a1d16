/** The player's packet queue: what it stands for as a sequence of entries, and the linked list that
    implements it. Each operation holds the queue's mutex throughout, so it is one atomic step. */
module PacketQueue {

  /** A packet. `Flush` is the one distinguished packet; `Media` is any other, with the number of
      seeks the reader had made before reading it (bookkeeping of the model), the byte size, and the
      duration. A null packet is a `Media` packet of size 0. */
  datatype Packet = Flush | Media(epoch: nat, size: nat, duration: int)

  function PacketSize(p: Packet): nat {
    if p.Flush? then 0 else p.size
  }

  function PacketDuration(p: Packet): int {
    if p.Flush? then 0 else p.duration
  }

  datatype Entry = Entry(pkt: Packet, serial: int)

  /** The queue as a value. */
  datatype Queue = Queue(entries: seq<Entry>, serial: int, abort: bool)

  const EMPTY_QUEUE: Queue := Queue([], 0, true)

  /** Putting is refused once aborted. The flush packet opens a new serial. */
  function Put(q: Queue, p: Packet): Queue {
    if q.abort then q
    else
      var serial := if p.Flush? then q.serial + 1 else q.serial;
      Queue(q.entries + [Entry(p, serial)], serial, q.abort)
  }

  /** Flushing drops the entries and keeps the serial. */
  function Drain(q: Queue): Queue {
    q.(entries := [])
  }

  function Abort(q: Queue): Queue {
    q.(abort := true)
  }

  function Start(q: Queue): Queue {
    Put(q.(abort := false), Flush)
  }

  datatype Taken = Aborted | Got(entry: Entry) | Nothing | MustWait

  /** What taking a packet yields; a blocking caller of an empty queue waits. */
  function Take(q: Queue, block: bool): Taken {
    if q.abort then Aborted
    else if q.entries != [] then Got(q.entries[0])
    else if block then MustWait
    else Nothing
  }

  function Rest(q: Queue): Queue {
    if q.abort || q.entries == [] then q else q.(entries := q.entries[1..])
  }

  /** Serials never decrease along the queue, and none is newer than the queue's own. */
  predicate SerialsOrdered(q: Queue) {
    && (forall i, k :: 0 <= i < k < |q.entries| ==> q.entries[i].serial <= q.entries[k].serial)
    && (forall i :: 0 <= i < |q.entries| ==> q.entries[i].serial <= q.serial)
  }

  lemma PutKeepsSerials(q: Queue, p: Packet)
    requires SerialsOrdered(q)
    ensures SerialsOrdered(Put(q, p)) && Put(q, p).serial >= q.serial
  {
  }

  /** Every operation keeps the serials in order and none lowers the queue's serial. */
  lemma SerialsStayOrdered(q: Queue, p: Packet)
    requires SerialsOrdered(q)
    ensures SerialsOrdered(Put(q, p)) && SerialsOrdered(Drain(q)) && SerialsOrdered(Abort(q))
    ensures SerialsOrdered(Start(q)) && SerialsOrdered(Rest(q))
    ensures Put(q, p).serial >= q.serial && Start(q).serial == q.serial + 1
  {
    PutKeepsSerials(q, p);
    PutKeepsSerials(q.(abort := false), Flush);
    hide Put;
  }

  /** When each of the four answers is given. */
  lemma Answers(q: Queue, block: bool)
    ensures Take(q, block).Aborted? <==> q.abort
    ensures Take(q, block).Got? <==> !q.abort && q.entries != []
    ensures Take(q, block).Got? ==> [Take(q, block).entry] + Rest(q).entries == q.entries
    ensures Take(q, block).MustWait? <==> !q.abort && q.entries == [] && block
    ensures Take(q, block).Nothing? <==> !q.abort && q.entries == [] && !block
  {
  }

  // ------------------------------------------------------------------ any list of operations

  datatype Op = PutPacket(pkt: Packet) | TakePacket | DrainAll | AbortQueue | StartQueue

  /** A queue with what has happened to it: the entries put and taken since it was last drained, and all
      that were ever taken. */
  datatype History = History(queue: Queue, put: seq<Entry>, taken: seq<Entry>, ever: seq<Entry>)

  const NEW_HISTORY: History := History(EMPTY_QUEUE, [], [], [])

  /** What a put adds. */
  function Accepted(q: Queue, p: Packet): seq<Entry> {
    if q.abort then [] else [Entry(p, if p.Flush? then q.serial + 1 else q.serial)]
  }

  function Apply(h: History, op: Op): History {
    var q := h.queue;
    match op
    case PutPacket(p) => h.(queue := Put(q, p), put := h.put + Accepted(q, p))
    case TakePacket =>
      (match Take(q, false)
       case Got(e) => h.(queue := Rest(q), taken := h.taken + [e], ever := h.ever + [e])
       case _ => h)
    case DrainAll => h.(queue := Drain(q), put := [], taken := [])
    case AbortQueue => h.(queue := Abort(q))
    case StartQueue => h.(queue := Start(q), put := h.put + Accepted(q.(abort := false), Flush))
  }

  function ApplyAll(h: History, ops: seq<Op>): History {
    if |ops| == 0 then h else Apply(ApplyAll(h, ops[..|ops| - 1]), ops[|ops| - 1])
  }

  predicate Rising(entries: seq<Entry>, serial: int) {
    && (forall i, k :: 0 <= i < k < |entries| ==> entries[i].serial <= entries[k].serial)
    && (forall i :: 0 <= i < |entries| ==> entries[i].serial <= serial)
  }

  /** What was put is what was taken and what is there, in this order; and serials never fall over
      everything taken and what is there. */
  predicate InOrder(h: History) {
    && h.put == h.taken + h.queue.entries
    && Rising(h.ever + h.queue.entries, h.queue.serial)
  }

  lemma RisingPrefix(front: seq<Entry>, rest: seq<Entry>, serial: int)
    requires Rising(front + rest, serial)
    ensures Rising(front + [], serial)
  {
    assert forall i :: 0 <= i < |front| ==> (front + rest)[i] == front[i];
  }

  lemma RisingSnoc(front: seq<Entry>, rest: seq<Entry>, e: Entry, serial: int)
    requires Rising(front + rest, serial) && e.serial >= serial
    ensures Rising(front + (rest + [e]), e.serial)
  {
    assert front + (rest + [e]) == (front + rest) + [e];
  }

  lemma PutKeepsOrder(h: History, q: Queue, p: Packet)
    requires InOrder(h.(queue := q))
    ensures InOrder(h.(queue := Put(q, p), put := h.put + Accepted(q, p))) && Put(q, p).serial >= q.serial
  {
    assert h.put + Accepted(q, p) == h.taken + (q.entries + Accepted(q, p));
    if !q.abort {
      RisingSnoc(h.ever, q.entries, Accepted(q, p)[0], q.serial);
    } else {
      assert q.entries + Accepted(q, p) == q.entries;
    }
  }

  lemma TakeKeepsOrder(h: History)
    requires InOrder(h) && Take(h.queue, false).Got?
    ensures InOrder(Apply(h, TakePacket))
  {
    var entries := h.queue.entries;
    assert entries == [entries[0]] + entries[1..];
    assert h.taken + entries == (h.taken + [entries[0]]) + entries[1..];
    assert h.ever + entries == (h.ever + [entries[0]]) + entries[1..];
  }

  lemma ApplyKeepsOrder(h: History, op: Op)
    requires InOrder(h)
    ensures InOrder(Apply(h, op)) && Apply(h, op).queue.serial >= h.queue.serial
  {
    var q := h.queue;
    match op
    case PutPacket(p) => PutKeepsOrder(h, q, p);
    case TakePacket =>
      if Take(q, false).Got? {
        TakeKeepsOrder(h);
      }
    case DrainAll => RisingPrefix(h.ever, q.entries, q.serial);
    case AbortQueue =>
    case StartQueue => PutKeepsOrder(h, q.(abort := false), Flush);
  }

  /** Once aborted, nothing is put and nothing taken until the queue is started again. */
  lemma {:induction false} AbortedUntilStarted(h: History, ops: seq<Op>)
    requires forall i :: 0 <= i < |ops| ==> !ops[i].StartQueue?
    ensures var a := Apply(h, AbortQueue); var t := ApplyAll(a, ops);
            && t.queue.abort && t.ever == h.ever && t.queue.serial == h.queue.serial
            && (t.queue.entries == h.queue.entries || t.queue.entries == [])
            && Take(t.queue, true).Aborted? && Take(t.queue, false).Aborted?
  {
    if |ops| > 0 {
      AbortedUntilStarted(h, ops[..|ops| - 1]);
    }
  }

  /** Starting opens a new serial, and what is put then is taken again. */
  lemma StartedAgain(h: History, p: Packet)
    requires p.Media?
    ensures var t := Apply(Apply(h, StartQueue), PutPacket(p));
            && t.queue.serial == h.queue.serial + 1 && !t.queue.abort
            && t.queue.entries == h.queue.entries + [Entry(Flush, t.queue.serial), Entry(p, t.queue.serial)]
  {
  }

  /** First in, first out, over any list of operations: what has been taken since the last drain is what
      was put since then, from the first on; what is left are the others; and the serials of all that was
      ever taken never fall. */
  lemma {:induction false} FirstInFirstOut(ops: seq<Op>)
    ensures var h := ApplyAll(NEW_HISTORY, ops);
            && h.put == h.taken + h.queue.entries
            && Rising(h.ever + h.queue.entries, h.queue.serial)
  {
    if |ops| > 0 {
      FirstInFirstOut(ops[..|ops| - 1]);
      ApplyKeepsOrder(ApplyAll(NEW_HISTORY, ops[..|ops| - 1]), ops[|ops| - 1]);
    }
  }

  function TotalSize(entries: seq<Entry>, nodeSize: nat): nat {
    if |entries| == 0 then 0
    else TotalSize(entries[..|entries| - 1], nodeSize) + PacketSize(entries[|entries| - 1].pkt) + nodeSize
  }

  function TotalDuration(entries: seq<Entry>): int {
    if |entries| == 0 then 0
    else TotalDuration(entries[..|entries| - 1]) + PacketDuration(entries[|entries| - 1].pkt)
  }

  lemma TotalsSnoc(entries: seq<Entry>, e: Entry, nodeSize: nat)
    ensures TotalSize(entries + [e], nodeSize) == TotalSize(entries, nodeSize) + PacketSize(e.pkt) + nodeSize
    ensures TotalDuration(entries + [e]) == TotalDuration(entries) + PacketDuration(e.pkt)
  {
  }

  /** The totals may be reduced from the front as well. */
  lemma {:induction false} TotalsTail(entries: seq<Entry>, nodeSize: nat)
    requires entries != []
    ensures TotalSize(entries[1..], nodeSize) == TotalSize(entries, nodeSize) - PacketSize(entries[0].pkt) - nodeSize
    ensures TotalDuration(entries[1..]) == TotalDuration(entries) - PacketDuration(entries[0].pkt)
    ensures |entries| == 1 ==> TotalSize(entries, nodeSize) == PacketSize(entries[0].pkt) + nodeSize
    ensures |entries| == 1 ==> TotalDuration(entries) == PacketDuration(entries[0].pkt)
  {
    if |entries| > 1 {
      var init, last := entries[..|entries| - 1], entries[|entries| - 1];
      TotalsTail(init, nodeSize);
      assert entries[1..] == init[1..] + [last];
      TotalsSnoc(init[1..], last, nodeSize);
    }
  }

  // ------------------------------------------------------------------ the linked list

  class Node {
    const pkt: Packet
    const serial: int
    var next: Node?

    constructor (pkt: Packet, serial: int)
      ensures this.pkt == pkt && this.serial == serial && next == null
    {
      this.pkt := pkt;
      this.serial := serial;
      next := null;
    }
  }

  class LinkedQueue {
    const nodeSize: nat
    var firstPkt: Node?
    var lastPkt: Node?
    var nbPackets: int
    var size: int
    var duration: int
    var abortRequest: bool
    var serial: int
    ghost var nodes: seq<Node>
    ghost var contents: seq<Entry>

    /** What the object stands for. */
    ghost function Value(): Queue
      reads this
    {
      Queue(contents, serial, abortRequest)
    }

    /** The nodes hang together from the first to the last and carry the contents. */
    ghost predicate Linked()
      reads `firstPkt, `lastPkt, `nodes, `contents, nodes
    {
      && |nodes| == |contents|
      && (forall i, k :: 0 <= i < k < |nodes| ==> nodes[i] != nodes[k])
      && (forall i :: 0 <= i < |nodes| ==> contents[i] == Entry(nodes[i].pkt, nodes[i].serial))
      && (forall i :: 0 <= i < |nodes| - 1 ==> nodes[i].next == nodes[i + 1])
      && (if nodes == [] then firstPkt == null && lastPkt == null
          else firstPkt == nodes[0] && lastPkt == nodes[|nodes| - 1] && nodes[|nodes| - 1].next == null)
    }

    /** The running totals agree with the contents. */
    ghost predicate Counted()
      reads `nbPackets, `size, `duration, `contents
    {
      && nbPackets == |contents|
      && size == TotalSize(contents, nodeSize)
      && duration == TotalDuration(contents)
    }

    ghost predicate Valid()
      reads this, nodes
    {
      Linked() && Counted()
    }

    /** The initial queue refuses packets until it is started. */
    constructor (nodeSize: nat)
      ensures Valid() && Value() == EMPTY_QUEUE
    {
      this.nodeSize := nodeSize;
      firstPkt, lastPkt := null, null;
      nbPackets, size, duration := 0, 0, 0;
      abortRequest := true;
      serial := 0;
      nodes, contents := [], [];
    }

    /** Hangs a new node behind the last one. */
    method Link(pkt: Packet)
      requires Linked()
      modifies `firstPkt, `lastPkt, `nodes, `contents, nodes
      ensures Linked() && contents == old(contents) + [Entry(pkt, serial)]
      ensures |nodes| > 0 && nodes[..|nodes| - 1] == old(nodes) && fresh(nodes[|nodes| - 1])
    {
      var pkt1 := new Node(pkt, serial);
      if lastPkt == null {
        firstPkt := pkt1;
      } else {
        lastPkt.next := pkt1;
      }
      lastPkt := pkt1;
      nodes := nodes + [pkt1];
      contents := contents + [Entry(pkt, serial)];
    }

    /** Takes the first node off the list. */
    method Unlink() returns (pkt1: Node)
      requires Linked() && nodes != []
      modifies this`firstPkt, this`lastPkt, this`nodes, this`contents
      ensures Linked() && pkt1 == old(nodes[0]) && nodes == old(nodes[1..]) && contents == old(contents[1..])
      ensures old(contents[0]) == Entry(pkt1.pkt, pkt1.serial)
    {
      pkt1 := firstPkt;
      firstPkt := pkt1.next;
      if firstPkt == null {
        lastPkt := null;
      }
      nodes := nodes[1..];
      contents := contents[1..];
    }

    /** Counts the packet just linked. */
    method CountIn(pkt: Packet)
      requires contents != [] && contents[|contents| - 1].pkt == pkt
      requires nbPackets == |contents| - 1
      requires size == TotalSize(contents[..|contents| - 1], nodeSize)
      requires duration == TotalDuration(contents[..|contents| - 1])
      modifies `nbPackets, `size, `duration
      ensures Counted()
    {
      nbPackets := nbPackets + 1;
      size := size + PacketSize(pkt) + nodeSize;
      duration := duration + PacketDuration(pkt);
    }

    method PutPrivate(pkt: Packet) returns (ret: int)
      requires Valid()
      modifies this, nodes
      ensures Valid() && Value() == Put(old(Value()), pkt)
      ensures ret == if old(abortRequest) then -1 else 0
      ensures forall i :: 0 <= i < |nodes| ==> nodes[i] in old(nodes) || fresh(nodes[i])
    {
      hide TotalSize, TotalDuration, Linked;
      if abortRequest {
        return -1;
      }
      if pkt.Flush? {
        serial := serial + 1;
      }
      Link(pkt);
      assert contents[..|contents| - 1] == old(contents);
      CountIn(pkt);
      ret := 0;
    }

    method Get(block: bool) returns (taken: Taken)
      requires Valid()
      modifies this
      ensures Valid() && taken == Take(old(Value()), block)
      ensures Value() == Rest(old(Value()))
      ensures nodes == if taken.Got? then old(nodes)[1..] else old(nodes)
    {
      if abortRequest {
        return Aborted;
      }
      if firstPkt == null {
        return if block then MustWait else Nothing;
      }
      TotalsTail(contents, nodeSize);
      hide TotalSize, TotalDuration, Linked;
      var pkt1 := Unlink();
      nbPackets := nbPackets - 1;
      size := size - (PacketSize(pkt1.pkt) + nodeSize);
      duration := duration - PacketDuration(pkt1.pkt);
      taken := Got(Entry(pkt1.pkt, pkt1.serial));
    }

    /** Unlinks every node in turn, then resets the totals. */
    method FlushAll()
      requires Valid()
      modifies this
      ensures Valid() && Value() == Drain(old(Value())) && nodes == []
    {
      var pkt := firstPkt;
      ghost var freed := 0;
      while pkt != null
        invariant freed <= |nodes|
        invariant pkt == if freed < |nodes| then nodes[freed] else null
        decreases |nodes| - freed
      {
        pkt := pkt.next;
        freed := freed + 1;
      }
      lastPkt := null;
      firstPkt := null;
      nbPackets, size, duration := 0, 0, 0;
      nodes, contents := [], [];
    }

    method AbortAll()
      requires Valid()
      modifies this
      ensures Valid() && Value() == Abort(old(Value())) && nodes == old(nodes)
    {
      abortRequest := true;
    }

    method StartAll()
      requires Valid()
      modifies this, nodes
      ensures Valid() && Value() == Start(old(Value()))
      ensures forall i :: 0 <= i < |nodes| ==> nodes[i] in old(nodes) || fresh(nodes[i])
    {
      abortRequest := false;
      var ret := PutPrivate(Flush);
    }
  }
}
