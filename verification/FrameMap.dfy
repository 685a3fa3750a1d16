/** Frames sent in pieces, as a map from frames to the bytes collected: what a piece does, and what
    becomes of a stream of pieces of many frames. */
module FrameMap {

  import opened Bytes

  const SLOTS: nat := 100
  const PADDING: nat := 64

  // ------------------------------------------------------------------ the packets

  /** A piece of frame `id`: the size at which the frame is whole, and the bytes. */
  datatype Chunk = Chunk(id: int, whole: nat, bytes: seq<byte>)

  /** A 32-bit word as a signed integer. */
  function Signed(x: nat): int {
    if x < 0x8000_0000 then x else x - 0x1_0000_0000
  }

  /** "cfrm", least byte first. */
  const CFRM: nat := 0x6d72_6663

  datatype Parsed = Piece(chunk: Chunk) | OtherKind | Invalid

  function Parse(version: nat, buf: seq<byte>): Parsed {
    if |buf| < 20 || |buf| < (Le32(buf, 4) + 8) % (UINT_MAX + 1) then Invalid
    else if Le32(buf, 0) != CFRM then OtherKind
    else if version <= 1 || Signed(Le32(buf, 16)) < 0 then Invalid
    else Piece(Chunk(Signed(Le32(buf, 12)), Signed(Le32(buf, 16)), buf[20..]))
  }

  /** A packet by its fields: what it is, a length, four bytes that are not looked at, an identifier, a
      size, and the rest. */
  function Packet(kind: seq<byte>, length: nat, any: seq<byte>, id: nat, whole: nat, bytes: seq<byte>): (buf: seq<byte>)
    requires |kind| == |any| == 4 && length <= UINT_MAX && id <= UINT_MAX && whole <= UINT_MAX
    ensures |buf| == 20 + |bytes|
  {
    kind + Le32Bytes(length) + any + Le32Bytes(id) + Le32Bytes(whole) + bytes
  }

  lemma FieldsReadBack(kind: seq<byte>, length: nat, any: seq<byte>, id: nat, whole: nat, bytes: seq<byte>)
    requires |kind| == |any| == 4 && length <= UINT_MAX && id <= UINT_MAX && whole <= UINT_MAX
    ensures var buf := Packet(kind, length, any, id, whole, bytes);
            && Le32(buf, 0) == Le32(kind, 0) && Le32(buf, 4) == length && Le32(buf, 12) == id
            && Le32(buf, 16) == whole && buf[20..] == bytes
  {
    hide Le32Bytes;
    var buf := Packet(kind, length, any, id, whole, bytes);
    assert buf[..4] == kind && buf[0..4] == kind;
    Le32ReadsBack(buf, 4, length);
    Le32ReadsBack(buf, 12, id);
    Le32ReadsBack(buf, 16, whole);
  }

  /** The name a packet with a piece begins with. */
  const PIECE: seq<byte> := [0x63, 0x66, 0x72, 0x6d]

  lemma KindIs(kind: seq<byte>)
    requires |kind| == 4
    ensures Le32(kind, 0) == CFRM <==> kind == PIECE
  {
  }

  /** A piece is read back from its packet: the identifier as a signed number, the size, and all bytes. */
  lemma PieceReadsBack(version: nat, length: nat, any: seq<byte>, c: Chunk)
    requires version >= 2 && |any| == 4 && length <= UINT_MAX && (length + 8) % (UINT_MAX + 1) <= 20 + |c.bytes|
    requires -0x8000_0000 <= c.id < 0x8000_0000 && c.whole < 0x8000_0000
    ensures var id := if c.id < 0 then c.id + 0x1_0000_0000 else c.id;
            Parse(version, Packet(PIECE, length, any, id, c.whole, c.bytes)) == Piece(c)
  {
    hide Le32, Packet;
    FieldsReadBack(PIECE, length, any, if c.id < 0 then c.id + 0x1_0000_0000 else c.id, c.whole, c.bytes);
    KindIs(PIECE);
  }

  /** Which packets are refused: ones shorter than they say; and pieces in an early version, or of a
      negative size. Any other packet that is no piece is left to others. */
  lemma RefusedIff(version: nat, kind: seq<byte>, length: nat, any: seq<byte>, id: nat, whole: nat, bytes: seq<byte>)
    requires |kind| == |any| == 4 && length <= UINT_MAX && id <= UINT_MAX && whole <= UINT_MAX
    ensures var p := Parse(version, Packet(kind, length, any, id, whole, bytes));
            && (p.Invalid? <==> (length + 8) % (UINT_MAX + 1) > 20 + |bytes|
                                || (kind == PIECE && (version < 2 || whole >= 0x8000_0000)))
            && (p.OtherKind? ==> kind != PIECE)
            && (p.Piece? ==> kind == PIECE)
  {
    hide Le32, Packet;
    FieldsReadBack(kind, length, any, id, whole, bytes);
    KindIs(kind);
  }

  /** Every packet of twenty bytes or more is one by its fields; shorter ones are refused. */
  lemma EveryPacket(version: nat, buf: seq<byte>)
    ensures |buf| < 20 ==> Parse(version, buf).Invalid?
    ensures |buf| >= 20 ==>
              buf == Packet(buf[..4], Le32(buf, 4), buf[8..12], Le32(buf, 12), Le32(buf, 16), buf[20..])
  {
    if |buf| >= 20 {
      BytesOfLe32(buf, 4);
      BytesOfLe32(buf, 12);
      BytesOfLe32(buf, 16);
      hide Le32, Le32Bytes;
    }
  }

  lemma BytesOfLe32(buf: seq<byte>, at: nat)
    requires at + 4 <= |buf|
    ensures Le32Bytes(Le32(buf, at)) == buf[at..at + 4]
  {
    BytesOfLe16(buf, at);
    BytesOfLe16(buf, at + 2);
    hide Le16, Le16Bytes;
    assert Le32(buf, at) % 0x1_0000 == Le16(buf, at) && Le32(buf, at) / 0x1_0000 == Le16(buf, at + 2);
  }

  lemma BytesOfLe16(buf: seq<byte>, at: nat)
    requires at + 2 <= |buf|
    ensures Le16Bytes(Le16(buf, at)) == buf[at..at + 2]
  {
  }

  // ------------------------------------------------------------------ the map

  /** What has been collected of a frame. */
  function Have(open: map<int, seq<byte>>, id: int): seq<byte> {
    if id in open then open[id] else []
  }

  /** What one piece does to the bytes of its own frame: refused, collected, or delivered. */
  datatype Effect = Refused | Collected(bytes: seq<byte>) | Whole(bytes: seq<byte>)

  function Add(have: seq<byte>, c: Chunk): Effect {
    if |have| + |c.bytes| + PADDING > UINT_MAX then Refused
    else if |have| + |c.bytes| >= c.whole then Whole(have + c.bytes)
    else Collected(have + c.bytes)
  }

  /** A piece is refused exactly when with it the frame would have more bytes than can be counted with
      padding; else it is added behind, and the frame delivered as soon as it has all its bytes. */
  lemma AddedIff(have: seq<byte>, c: Chunk)
    ensures var n := |have| + |c.bytes|;
            && (Add(have, c).Refused? <==> n >= 0xffff_ffff - 63)
            && (Add(have, c) == Whole(have + c.bytes) <==> c.whole <= n < 0xffff_ffff - 63)
            && (Add(have, c) == Collected(have + c.bytes) <==> n < c.whole && n < 0xffff_ffff - 63)
  {
  }

  /** A frame with no bytes is the same as none. */
  function Keep(open: map<int, seq<byte>>, id: int, bytes: seq<byte>): map<int, seq<byte>> {
    if bytes == [] then open - {id} else open[id := bytes]
  }

  function Put(open: map<int, seq<byte>>, c: Chunk): map<int, seq<byte>> {
    match Add(Have(open, c.id), c)
    case Refused => open
    case Collected(bytes) => Keep(open, c.id, bytes)
    case Whole(_) => Keep(open, c.id, [])
  }

  predicate Room(open: map<int, seq<byte>>, id: int) {
    id in open || |open| < SLOTS
  }

  // ------------------------------------------------------------------ runs

  datatype Delivery = Delivery(id: int, bytes: seq<byte>)

  function Delivered(have: seq<byte>, c: Chunk): seq<Delivery> {
    match Add(have, c)
    case Whole(bytes) => [Delivery(c.id, bytes)]
    case _ => []
  }

  function Deliveries(open: map<int, seq<byte>>, cs: seq<Chunk>): seq<Delivery>
    decreases |cs|
  {
    if |cs| == 0 then []
    else Delivered(Have(open, cs[0].id), cs[0]) + Deliveries(Put(open, cs[0]), cs[1..])
  }

  function Final(open: map<int, seq<byte>>, cs: seq<Chunk>): map<int, seq<byte>>
    decreases |cs|
  {
    if |cs| == 0 then open else Final(Put(open, cs[0]), cs[1..])
  }

  function OfFrame(id: int, cs: seq<Chunk>): seq<Chunk> {
    if |cs| == 0 then [] else (if cs[0].id == id then [cs[0]] else []) + OfFrame(id, cs[1..])
  }

  function ForFrame(id: int, ds: seq<Delivery>): seq<seq<byte>> {
    if |ds| == 0 then [] else (if ds[0].id == id then [ds[0].bytes] else []) + ForFrame(id, ds[1..])
  }

  lemma {:induction false} ForFrameAppend(id: int, ds: seq<Delivery>, es: seq<Delivery>)
    ensures ForFrame(id, ds + es) == ForFrame(id, ds) + ForFrame(id, es)
  {
    if |ds| == 0 {
      assert ds + es == es;
    } else {
      ForFrameAppend(id, ds[1..], es);
      assert (ds + es)[1..] == ds[1..] + es && (ds + es)[0] == ds[0];
      var first := if ds[0].id == id then [ds[0].bytes] else [];
      hide ForFrame;
      assert first + (ForFrame(id, ds[1..]) + ForFrame(id, es)) == (first + ForFrame(id, ds[1..])) + ForFrame(id, es);
    }
  }

  /** One frame's pieces alone: what is left over, what was delivered, and all bytes let in. */
  datatype Alone = Alone(rest: seq<byte>, delivered: seq<seq<byte>>, taken: seq<byte>)

  function Collect(have: seq<byte>, cs: seq<Chunk>): Alone
    decreases |cs|
  {
    if |cs| == 0 then Alone(have, [], [])
    else
      match Add(have, cs[0])
      case Refused => Collect(have, cs[1..])
      case Collected(bytes) => var a := Collect(bytes, cs[1..]); a.(taken := cs[0].bytes + a.taken)
      case Whole(bytes) =>
        var a := Collect([], cs[1..]);
        Alone(a.rest, [bytes] + a.delivered, cs[0].bytes + a.taken)
  }

  lemma PutOthers(open: map<int, seq<byte>>, c: Chunk, id: int)
    requires id != c.id
    ensures Have(Put(open, c), id) == Have(open, id)
  {
  }

  lemma PutOwn(open: map<int, seq<byte>>, c: Chunk)
    ensures Have(Put(open, c), c.id) == match Add(Have(open, c.id), c)
                                        case Refused => Have(open, c.id)
                                        case Collected(bytes) => bytes
                                        case Whole(_) => []
  {
  }

  /** However the pieces of frames interleave, each frame gets what its own pieces alone would give. */
  lemma {:induction false} FramesDoNotMix(open: map<int, seq<byte>>, cs: seq<Chunk>, id: int)
    ensures var alone := Collect(Have(open, id), OfFrame(id, cs));
            ForFrame(id, Deliveries(open, cs)) == alone.delivered && Have(Final(open, cs), id) == alone.rest
    decreases |cs|
  {
    if |cs| > 0 {
      var c, rest := cs[0], cs[1..];
      var ds := Delivered(Have(open, c.id), c);
      FramesDoNotMix(Put(open, c), rest, id);
      ForFrameAppend(id, ds, Deliveries(Put(open, c), rest));
      if c.id == id {
        PutOwn(open, c);
        assert ([c] + OfFrame(id, rest))[1..] == OfFrame(id, rest);
        assert ForFrame(id, ds) == match Add(Have(open, id), c) case Whole(bytes) => [bytes] case _ => [];
      } else {
        PutOthers(open, c, id);
        assert [] + OfFrame(id, rest) == OfFrame(id, rest);
      }
    }
  }

  function Concat(parts: seq<seq<byte>>): seq<byte> {
    if |parts| == 0 then [] else parts[0] + Concat(parts[1..])
  }

  /** Delivered frames and the rest, put together, are the pieces in the order they came. */
  lemma {:induction false} NothingLost(have: seq<byte>, cs: seq<Chunk>)
    ensures var a := Collect(have, cs); Concat(a.delivered) + a.rest == have + a.taken
    decreases |cs|
  {
    if |cs| > 0 {
      var c := cs[0];
      match Add(have, c)
      case Refused => NothingLost(have, cs[1..]);
      case Collected(bytes) =>
        NothingLost(bytes, cs[1..]);
        Regroup(have, c.bytes, Collect(bytes, cs[1..]).taken);
      case Whole(bytes) =>
        NothingLost([], cs[1..]);
        var a := Collect([], cs[1..]);
        assert ([bytes] + a.delivered)[1..] == a.delivered;
        hide Collect, Concat;
        Regroup(bytes, Concat(a.delivered), a.rest);
        Regroup(have, c.bytes, a.taken);
        assert [] + a.taken == a.taken;
    }
  }

  lemma Regroup(a: seq<byte>, b: seq<byte>, c: seq<byte>)
    ensures (a + b) + c == a + (b + c)
  {
  }
}
