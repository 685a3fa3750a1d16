/** The packet of a P frame: the lengths it gives, and the three streams it is cut into. */
module PFramePackets {

  import opened BitStrings
  import opened Bytes
  import opened MotionVectors
  import opened PBlocks
  import opened PFrames
  import opened PFrameDecoder

  const INT_MAX: nat := 0x7fff_ffff
  const PADDING: nat := 64

  /** The value of an expression of unsigned 32-bit numbers. */
  function Unsigned(x: int): (r: nat)
    ensures r <= UINT_MAX && (0 <= x <= UINT_MAX ==> r == x)
  {
    x % 0x1_0000_0000
  }

  /** What a packet says of itself: the length of its header and of the streams, in the order they come. */
  datatype Sizes = Sizes(extra: nat, bits: nat, words: nat, bytes: nat)

  /** Later versions begin the packet with a header; earlier ones keep two lengths in the four bytes before
      it, and the byte stream is what remains, in unsigned arithmetic. */
  function SizesOf(version: nat, before: seq<byte>, buf: seq<byte>): (z: Sizes)
    requires |before| == 4 && (version > 1 ==> |buf| >= 20)
    ensures z.bits <= UINT_MAX && z.words <= UINT_MAX && z.bytes <= UINT_MAX
  {
    if version > 1 then Sizes(20, Le32(buf, 8), Le32(buf, 12), Le32(buf, 16))
    else
      var bits, words := Le16(before, 0), Le16(before, 2);
      Sizes(0, bits, words, Unsigned(|buf| - bits - words))
  }

  /** The test of the lengths, as it is computed. */
  predicate Refused(z: Sizes, length: nat) {
    || z.bits > length || z.bits >= INT_MAX / 8
    || z.bytes > Unsigned(length - z.bits)
    || z.words > Unsigned(length - z.bytes - z.bits)
    || z.extra > Unsigned(length - z.bytes - z.bits - z.words)
  }

  /** Whether a packet is taken. */
  predicate Taken(version: nat, before: seq<byte>, buf: seq<byte>)
    requires |before| == 4
  {
    (version > 1 ==> |buf| >= 20) && !Refused(SizesOf(version, before, buf), |buf|)
  }

  /** Although differences of lengths can wrap around, a packet is taken exactly when it has room for its
      header and all three streams, and few enough bytes are bits. */
  lemma TakenIff(version: nat, before: seq<byte>, buf: seq<byte>)
    requires |before| == 4 && |buf| <= INT_MAX
    ensures Taken(version, before, buf) <==>
            if version > 1 then
              && |buf| >= 20 && Le32(buf, 8) < INT_MAX / 8
              && 20 + Le32(buf, 8) + Le32(buf, 12) + Le32(buf, 16) <= |buf|
            else Le16(before, 0) + Le16(before, 2) <= |buf|
  {
    hide Le32;
  }

  // ------------------------------------------------------------------ the bit stream

  /** Bytes in groups of four, each group the other way round. */
  function Swapped(s: seq<byte>): (t: seq<byte>)
    requires |s| % 4 == 0
    ensures |t| == |s|
  {
    seq(|s|, j requires 0 <= j < |s| => s[4 * (j / 4) + 3 - j % 4])
  }

  lemma SwappedTwice(s: seq<byte>)
    requires |s| % 4 == 0
    ensures Swapped(Swapped(s)) == s
  {
    var t := Swapped(s);
    forall j | 0 <= j < |s| ensures Swapped(t)[j] == s[j] {
      var k := 4 * (j / 4) + 3 - j % 4;
      assert k / 4 == j / 4 && k % 4 == 3 - j % 4;
    }
  }

  lemma WordSwapped(src: seq<byte>, at: nat)
    requires at % 4 == 0 && at + 4 <= |src|
    ensures Swapped(src[..at + 4]) == Swapped(src[..at]) + [src[at + 3], src[at + 2], src[at + 1], src[at]]
  {
  }

  function Zeros(n: nat): (s: seq<byte>)
    ensures |s| == n
  {
    seq(n, _ => 0)
  }

  /** What a buffer holds in its first n bytes once it has room for them: the old bytes, or zeros. */
  function Kept(held: seq<byte>, n: nat): (s: seq<byte>)
    ensures |s| == n
  {
    if n + PADDING <= |held| then held[..n] else Zeros(n)
  }

  /** The bytes of the bit stream: whole words swapped; up to three bytes at the end are not copied. */
  function BitBytes(held: seq<byte>, buf: seq<byte>, at: nat, n: nat): (s: seq<byte>)
    requires at + n <= |buf|
    ensures |s| == n
  {
    var whole := n / 4 * 4;
    Swapped(buf[at..at + whole]) + Kept(held, n)[whole..]
  }

  /** Byte by byte: in whole words the bytes the other way round; behind them what the buffer held if it had
      room and padding for all, else zero. */
  lemma BitByteIs(held: seq<byte>, buf: seq<byte>, at: nat, n: nat, word: nat, k: nat)
    requires at + n <= |buf| && k < 4 && 4 * word + k < n
    ensures BitBytes(held, buf, at, n)[4 * word + k] ==
            if 4 * word + 4 <= n then buf[at + 4 * word + 3 - k]
            else if n + 64 <= |held| then held[4 * word + k]
            else 0
  {
    var whole := n / 4 * 4;
    assert (4 * word + k) / 4 == word && (4 * word + k) % 4 == k;
    assert 4 * word + 4 <= n <==> 4 * word + k < whole;
  }

  /** Bits of bytes, highest first. */
  function BitsOf(s: seq<byte>): (b: seq<bool>)
    ensures |b| == 8 * |s|
  {
    seq(8 * |s|, i requires 0 <= i < 8 * |s| => Bits(s[i / 8], 8)[i % 8])
  }

  /** A P frame as the decoder sees it: the word stream runs on into the byte stream. */
  function Cut(version: nat, width: nat, height: nat, held: seq<byte>, before: seq<byte>, buf: seq<byte>,
               last: seq<Pixel>): (e: Source)
    requires |before| == 4 && |buf| <= INT_MAX && Taken(version, before, buf)
  {
    TakenIff(version, before, buf);
    var z := SizesOf(version, before, buf);
    Source(version, width, height, Distances(version, width), BitsOf(BitBytes(held, buf, z.extra, z.bits)),
           buf[z.extra + z.bits + z.words..], buf[z.extra + z.bits..], last)
  }

  lemma CutIsWhole(version: nat, width: nat, height: nat, held: seq<byte>, before: seq<byte>, buf: seq<byte>,
                   last: seq<Pixel>)
    requires |before| == 4 && |buf| <= INT_MAX && Taken(version, before, buf)
    requires width % 8 == 0 && height % 8 == 0 && |last| == width * height
    ensures Whole(Cut(version, width, height, held, before, buf, last))
    ensures Cut(version, width, height, held, before, buf, last).last == last
  {
    hide Distances, Taken, BitsOf, BitBytes;
  }

  /** Moving by a byte's vector leads from a place in the picture to the one so far to the right and down. */
  lemma VectorMoves(version: nat, width: nat, height: nat, held: seq<byte>, before: seq<byte>, buf: seq<byte>,
                    last: seq<Pixel>, x: nat, y: nat, code: byte)
    requires |before| == 4 && |buf| <= INT_MAX && Taken(version, before, buf)
    ensures var e, v := Cut(version, width, height, held, before, buf, last), VectorOf(version, code);
            |e.mv| == 256 && At(e, x, y) + e.mv[code] == (y + v.down) * width + (x + v.right)
  {
    hide Taken, BitsOf, BitBytes, VectorOf;
    var v := VectorOf(version, code);
    assert Distances(version, width)[code] == Distance(v, width);
    assert (y + v.down) * width == y * width + v.down * width;
  }

  /** The decoder of P frame packets, and the buffer it keeps for the bit stream. */
  class PacketDecoder {
    const version: nat
    const width: nat
    const height: nat
    var buffer: array<byte>

    constructor (version: nat, width: nat, height: nat)
      ensures this.version == version && this.width == width && this.height == height
      ensures fresh(buffer) && buffer[..] == []
    {
      this.version, this.width, this.height := version, width, height;
      buffer := new byte[0];
    }

    /** Makes room for n bytes and padding, and clears the padding. */
    method Reserve(n: nat)
      modifies this, buffer
      ensures buffer == old(buffer) || fresh(buffer)
      ensures n + PADDING <= buffer.Length
      ensures buffer[..n] == Kept(old(buffer[..]), n) && buffer[n..n + PADDING] == Zeros(PADDING)
    {
      if n + PADDING > buffer.Length {
        var room := n + PADDING;
        buffer := new byte[if 17 * room / 16 + 32 > room then 17 * room / 16 + 32 else room](_ => 0);
      }
      assert buffer[..n] == Kept(old(buffer[..]), n);
      ClearPadding(n);
    }

    method ClearPadding(n: nat)
      requires n + PADDING <= buffer.Length
      modifies buffer
      ensures buffer[..n] == old(buffer[..n]) && buffer[n..n + PADDING] == Zeros(PADDING)
    {
      for i := n to n + PADDING
        invariant buffer[..n] == old(buffer[..n])
        invariant forall k :: n <= k < i ==> buffer[k] == 0
      {
        buffer[i] := 0;
      }
    }

    /** Copies w words of four bytes, each the other way round. */
    method BswapBuf(src: seq<byte>, w: nat)
      requires 4 * w <= |src| && 4 * w <= buffer.Length
      modifies buffer
      ensures buffer[..] == Swapped(src[..4 * w]) + old(buffer[4 * w..])
    {
      hide Swapped;
      ghost var rest := buffer[..];
      for i := 0 to w
        invariant buffer[..4 * i] == Swapped(src[..4 * i])
        invariant buffer[4 * i..] == rest[4 * i..]
      {
        WordSwapped(src, 4 * i);
        PutWord(4 * i, src[4 * i..4 * i + 4]);
      }
    }

    /** Writes four bytes the other way round. */
    method PutWord(at: nat, s: seq<byte>)
      requires |s| == 4 && at + 4 <= buffer.Length
      modifies buffer
      ensures buffer[..at + 4] == old(buffer[..at]) + [s[3], s[2], s[1], s[0]]
      ensures buffer[at + 4..] == old(buffer[at + 4..])
    {
      buffer[at], buffer[at + 1], buffer[at + 2], buffer[at + 3] := s[3], s[2], s[1], s[0];
    }

    /** Fetches the bit stream of n bytes from a place in the packet. */
    method FetchBits(buf: seq<byte>, at: nat, n: nat)
      requires at + n <= |buf|
      modifies this, buffer
      ensures buffer == old(buffer) || fresh(buffer)
      ensures n <= buffer.Length && buffer[..n] == BitBytes(old(buffer[..]), buf, at, n)
    {
      hide Swapped, Kept;
      Reserve(n);
      ghost var held, whole := buffer[..], n / 4 * 4;
      BswapBuf(buf[at..], n / 4);
      assert buf[at..][..4 * (n / 4)] == buf[at..at + whole];
      assert buffer[..n] == Swapped(buf[at..at + whole]) + held[..n][whole..];
    }

    /** Tests the lengths a packet gives. */
    method Accepts(before: seq<byte>, buf: seq<byte>) returns (ok: bool)
      requires |before| == 4
      ensures ok == Taken(version, before, buf)
    {
      if version > 1 && |buf| < 20 {
        return false;
      }
      var z, length := SizesOf(version, before, buf), |buf|;
      if z.bits > length || z.bits >= INT_MAX / 8
         || z.bytes > Unsigned(length - z.bits)
         || z.words > Unsigned(length - z.bytes - z.bits)
         || z.extra > Unsigned(length - z.bytes - z.bits - z.words) {
        return false;
      }
      return true;
    }

    /** Cuts a packet into its streams. */
    method CutPacket(before: seq<byte>, buf: seq<byte>, last: array<Pixel>) returns (e: Source)
      requires |before| == 4 && |buf| <= INT_MAX && Taken(version, before, buf)
      modifies this, buffer
      ensures buffer == old(buffer) || fresh(buffer)
      ensures e == Cut(version, width, height, old(buffer[..]), before, buf, old(last[..]))
    {
      hide Distances, BitsOf, BitBytes, Taken;
      TakenIff(version, before, buf);
      var z := SizesOf(version, before, buf);
      e := Source(version, width, height, [], [], buf[z.extra + z.bits + z.words..], buf[z.extra + z.bits..], last[..]);
      FetchBits(buf, z.extra, z.bits);
      var mv := InitMv(version, width * 2);
      e := e.(mv := mv[..], bits := BitsOf(buffer[..z.bits]));
    }

    /** Reads and paints a frame from its streams. */
    method Paint(e: Source, frame: array<Pixel>, last: array<Pixel>) returns (ok: bool)
      requires Whole(e) && frame != last && frame.Length == last.Length && last[..] == e.last
      modifies frame
      ensures var p := ParseRows(e, Readers(0, 0, 0), 0);
              Done(e, p, old(frame[..]), frame[..], p.readers, ok)
    {
      hide ParseRows, Done;
      ghost var f := frame[..];
      var d := new Decoder(e, frame, last);
      ok := d.DecodePFrame();
      assert d.E() == e;
      DoneReaders(e, ParseRows(e, Readers(0, 0, 0), 0), f, frame[..], d.Now(), ok);
    }

    /** What is left behind by the decoding of a packet. */
    twostate predicate Decoded(before: seq<byte>, buf: seq<byte>, frame: array<Pixel>, last: array<Pixel>, ok: bool)
      requires |before| == 4 && |buf| <= INT_MAX && width % 8 == 0 && height % 8 == 0
      requires frame.Length == last.Length == width * height
      reads this, frame, last
    {
      if Taken(version, before, buf) then
        var e := Cut(version, width, height, old(buffer[..]), before, buf, old(last[..]));
        CutIsWhole(version, width, height, old(buffer[..]), before, buf, old(last[..]));
        var p := ParseRows(e, Readers(0, 0, 0), 0);
        Done(e, p, old(frame[..]), frame[..], p.readers, ok)
      else
        !ok && frame[..] == old(frame[..]) && buffer == old(buffer)
    }

    /** Cuts a packet into its streams, and reads and paints its frame. */
    method DecodePFrame(before: seq<byte>, buf: seq<byte>, frame: array<Pixel>, last: array<Pixel>) returns (ok: bool)
      requires |before| == 4 && |buf| <= INT_MAX && width % 8 == 0 && height % 8 == 0
      requires frame != last && frame.Length == last.Length == width * height && buffer as object !in {frame, last}
      modifies this, buffer, frame
      ensures Decoded(before, buf, frame, last, ok)
      ensures buffer == old(buffer) || fresh(buffer)
    {
      hide Taken, Cut, ParseRows, Done, Whole;
      ok := Accepts(before, buf);
      if ok {
        CutIsWhole(version, width, height, buffer[..], before, buf, last[..]);
        var e := CutPacket(before, buf, last);
        ok := Paint(e, frame, last);
      }
    }
  }
}
