/** What a packet goes through on its way to the muxer: the frame limit, the queue that holds packets
    until the header is written, and the repair of timestamps. */
module MuxTimestamps {

  import R = RateConverter

  const MIN: int := -0x8000_0000_0000_0000
  const MAX: int := 0x7fff_ffff_ffff_ffff

  /** A 64-bit timestamp. */
  type Time = x: int | MIN <= x <= MAX

  /** The least timestamp stands for an absent one. */
  const NOPTS: Time := MIN

  /** Sums wrap around at 64 bits. */
  function Wrap(x: int): Time {
    (x - MIN) % 0x1_0000_0000_0000_0000 + MIN
  }

  datatype Kind = Audio | Video | Subtitle | Data | Attachment

  /** How a stream is written: its kind, what its format wants of timestamps (none at all; equal ones
      allowed), whether it is a copied VP9 stream, whether its timestamps are thrown away first, and how
      they are rescaled to its time base. */
  datatype Stream = Stream(
    kind: Kind, noTimestamps: bool, nonStrict: bool, vp9Copy: bool, dropTimes: bool, rescale: Time -> Time)

  datatype Stamps = Stamps(pts: Time, dts: Time)

  function Max(a: int, b: int): int {
    if a > b then a else b
  }

  /** One of the three, with two of them at most and two of them at least as large. */
  predicate IsMedian(m: int, a: int, b: int, c: int) {
    && (m == a || m == b || m == c)
    && R.Bit(a <= m) + R.Bit(b <= m) + R.Bit(c <= m) >= 2
    && R.Bit(a >= m) + R.Bit(b >= m) + R.Bit(c >= m) >= 2
  }

  // ------------------------------------------------------------------ the rules

  /** A packet to be decoded after it is shown gets one time for both: the median of its times and the
      tick after the last packet. */
  function Guess(last: Time, p: Stamps): Stamps {
    if p.dts != NOPTS && p.pts != NOPTS && p.dts > p.pts
    then var m := R.MidPred(p.pts, p.dts, Wrap(last + 1)); Stamps(m, m)
    else p
  }

  /** Streams whose decoding times are kept in order. */
  predicate Watched(st: Stream) {
    (st.kind.Audio? || st.kind.Video? || st.kind.Subtitle?) && !st.vp9Copy && !st.noTimestamps
  }

  /** How far a decoding time must be past the one before. */
  function Gap(st: Stream): int {
    R.Bit(!st.nonStrict)
  }

  /** A decoding time too early is moved to the least one allowed, and the display time with it. */
  function Raise(st: Stream, last: Time, p: Stamps): Stamps {
    var least := Wrap(last + Gap(st));
    if Watched(st) && p.dts != NOPTS && last != NOPTS && p.dts < least
    then Stamps(if p.pts >= p.dts then Max(p.pts, least) else p.pts, least)
    else p
  }

  /** An absent time stays absent; any other is rescaled. */
  function Rescaled(st: Stream, t: Time): Time {
    if t == NOPTS then NOPTS else st.rescale(t)
  }

  /** A packet's times before any repair. */
  function Given(st: Stream, p: Stamps): Stamps {
    if st.dropTimes then Stamps(NOPTS, NOPTS) else Stamps(Rescaled(st, p.pts), Rescaled(st, p.dts))
  }

  function Repaired(st: Stream, last: Time, p: Stamps): Stamps {
    if st.noTimestamps then Given(st, p) else Raise(st, last, Guess(last, Given(st, p)))
  }

  function LastDts(out: seq<Stamps>): Time {
    if |out| == 0 then NOPTS else out[|out| - 1].dts
  }

  /** What the muxer gets for a whole stream of packets. */
  function MuxAll(st: Stream, ps: seq<Stamps>): (out: seq<Stamps>)
    ensures |out| == |ps|
  {
    if |ps| == 0 then []
    else
      var before := MuxAll(st, ps[..|ps| - 1]);
      before + [Repaired(st, LastDts(before), ps[|ps| - 1])]
  }

  // ------------------------------------------------------------------ one packet

  lemma WrapNear(x: Time, d: int)
    requires 0 <= d <= 1
    ensures Wrap(x + d) == if x + d > MAX then MIN else x + d
  {
  }

  lemma WrapAround(x: Time)
    ensures Wrap(x) == x && Wrap(x + 0x1_0000_0000_0000_0000) == x
  {
  }

  lemma MedianIsMiddle(a: int, b: int, c: int)
    ensures IsMedian(R.MidPred(a, b, c), a, b, c)
    ensures R.MidPred(a, b, c) == a + b + c - R.Min(R.Min(a, b), c) - Max(Max(a, b), c)
  {
  }

  /** Summing and taking away the extremes leaves the median, even where the sum wraps around. */
  lemma SumIsMedian(pts: Time, dts: Time, last: Time)
    ensures var next := Wrap(last + 1);
            var sum := pts + dts + last + 1 - R.Min(R.Min(pts, dts), next) - Max(Max(pts, dts), next);
            Wrap(sum) == R.MidPred(pts, dts, next) && IsMedian(Wrap(sum), pts, dts, next)
  {
    hide Wrap;
    var next := Wrap(last + 1);
    WrapNear(last, 1);
    MedianIsMiddle(pts, dts, next);
    WrapAround(R.MidPred(pts, dts, next));
  }

  /** A watched packet with a decoding time comes out far enough past the last one, exactly when there
      is such a time at all. */
  lemma StepOrdered(st: Stream, last: Time, p: Stamps)
    requires Watched(st) && last != NOPTS && Given(st, p).dts != NOPTS
    ensures Repaired(st, last, p).dts >= last + Gap(st) <==> last + Gap(st) <= MAX
  {
  }

  /** No packet is decoded after it is shown; a time is there afterwards just when it was before. */
  lemma ShownAfterDecoded(st: Stream, last: Time, p: Stamps)
    requires !st.noTimestamps
    ensures var q := Repaired(st, last, p);
            && (q.dts == NOPTS <==> Given(st, p).dts == NOPTS)
            && (q.pts == NOPTS <==> Given(st, p).pts == NOPTS)
            && (q.pts != NOPTS && q.dts != NOPTS ==> q.pts >= q.dts)
  {
  }

  /** The display time given out is the one given, unless the decoding time is later: then it is that. */
  lemma DisplayTime(st: Stream, last: Time, p: Stamps)
    requires !st.noTimestamps
    ensures var g, q := Given(st, p), Repaired(st, last, p);
            q.pts == if g.pts != NOPTS && q.dts != NOPTS then Max(g.pts, q.dts) else g.pts
  {
    MedianIsMiddle(Given(st, p).pts, Given(st, p).dts, Wrap(last + 1));
    hide Wrap;
  }

  /** The decoding time given out is the packet's own, or the median where it is to be shown before it is
      decoded; on a watched stream no less than the least allowed, and no more than needed. */
  lemma DecodingTime(st: Stream, last: Time, p: Stamps) returns (own: Time)
    requires !st.noTimestamps && Given(st, p).dts != NOPTS
    ensures var g, q := Given(st, p), Repaired(st, last, p);
            && (if g.pts != NOPTS && g.dts > g.pts then IsMedian(own, g.pts, g.dts, Wrap(last + 1)) else own == g.dts)
            && q.dts == if Watched(st) && own != NOPTS && last != NOPTS then Max(own, Wrap(last + Gap(st))) else own
  {
    var g := Given(st, p);
    MedianIsMiddle(g.pts, g.dts, Wrap(last + 1));
    hide Wrap;
    own := Guess(last, g).dts;
  }

  /** A packet passes unchanged exactly when its times are in order and, where that is watched, far
      enough past the last packet. */
  lemma UntouchedIff(st: Stream, last: Time, p: Stamps)
    requires !st.noTimestamps
    ensures var g := Given(st, p);
            Repaired(st, last, p) == g <==>
              && (g.dts == NOPTS || g.pts == NOPTS || g.dts <= g.pts)
              && (Watched(st) && g.dts != NOPTS && last != NOPTS ==> g.dts >= Wrap(last + Gap(st)))
  {
  }

  /** A decoding time too early is raised exactly in audio, video and subtitles, but not in copied VP9. */
  lemma RaisedIff(st: Stream, last: Time, p: Stamps)
    requires !st.noTimestamps && last != NOPTS
    requires NOPTS != Given(st, p).dts == Given(st, p).pts < last <= MAX - 1
    ensures Repaired(st, last, p) != Given(st, p) <==>
            (st.kind.Audio? || st.kind.Video? || st.kind.Subtitle?) && !st.vp9Copy
  {
  }

  // ------------------------------------------------------------------ whole runs

  lemma MuxedNext(st: Stream, ps: seq<Stamps>, n: nat)
    requires n < |ps|
    ensures MuxAll(st, ps[..n + 1]) == MuxAll(st, ps[..n]) + [Repaired(st, LastDts(MuxAll(st, ps[..n])), ps[n])]
  {
    assert ps[..n + 1][..n] == ps[..n];
  }

  /** Each packet is repaired against the one written before it. */
  lemma {:induction false} MuxedAt(st: Stream, ps: seq<Stamps>, k: nat)
    requires k < |ps|
    ensures MuxAll(st, ps)[k] == Repaired(st, LastDts(MuxAll(st, ps)[..k]), ps[k])
    ensures MuxAll(st, ps)[..k] == MuxAll(st, ps[..k])
    decreases |ps|
  {
    var n := |ps| - 1;
    var before := MuxAll(st, ps[..n]);
    if k < n {
      MuxedAt(st, ps[..n], k);
      assert ps[..n][..k] == ps[..k] && MuxAll(st, ps)[..k] == before[..k];
    } else {
      assert MuxAll(st, ps)[..k] == before;
    }
  }

  /** Formats without timestamps get the times as they are; where times are to be thrown away every packet
      of a run goes out without any. */
  lemma LeftAlone(st: Stream, ps: seq<Stamps>, k: nat)
    requires k < |ps|
    ensures st.dropTimes ==> MuxAll(st, ps)[k] == Stamps(NOPTS, NOPTS)
    ensures st.noTimestamps && !st.dropTimes ==>
              && MuxAll(st, ps)[k].pts == (if ps[k].pts == NOPTS then NOPTS else st.rescale(ps[k].pts))
              && MuxAll(st, ps)[k].dts == (if ps[k].dts == NOPTS then NOPTS else st.rescale(ps[k].dts))
  {
    MuxedAt(st, ps, k);
  }

  /** Every packet of a run is shown no earlier than decoded. */
  lemma RunShownAfterDecoded(st: Stream, ps: seq<Stamps>, k: nat)
    requires !st.noTimestamps && k < |ps|
    ensures var q := MuxAll(st, ps)[k]; q.pts != NOPTS && q.dts != NOPTS ==> q.pts >= q.dts
  {
    MuxedAt(st, ps, k);
    ShownAfterDecoded(st, LastDts(MuxAll(st, ps)[..k]), ps[k]);
  }

  /** The repair never moves a decoding time beyond its own and the least one allowed. */
  lemma RepairBound(st: Stream, last: Time, p: Stamps)
    requires Watched(st)
    ensures Repaired(st, last, p).dts <= Max(Given(st, p).dts, if last == NOPTS then NOPTS else last + Gap(st))
  {
  }

  /** How far times are moved at most over n packets. */
  function Growth(st: Stream, n: int): int {
    if st.nonStrict then 0 else n
  }

  /** What is asked of the times given: none is so late that the run could reach the end of time. */
  predicate Headroom(st: Stream, ps: seq<Stamps>, latest: Time) {
    (forall k :: 0 <= k < |ps| ==> Given(st, ps[k]).dts <= latest) && latest + Growth(st, |ps|) <= MAX
  }

  lemma MuxedAfter(st: Stream, ps: seq<Stamps>, k: nat)
    requires k < |ps|
    ensures MuxAll(st, ps)[k] == Repaired(st, if k == 0 then NOPTS else MuxAll(st, ps)[k - 1].dts, ps[k])
  {
    MuxedAt(st, ps, k);
    hide MuxAll, Repaired;
  }

  lemma {:induction false} NeverTooLate(st: Stream, ps: seq<Stamps>, latest: Time, k: nat)
    requires Watched(st) && Headroom(st, ps, latest) && k < |ps|
    ensures MuxAll(st, ps)[k].dts <= latest + Growth(st, k)
  {
    hide Repaired, MuxAll, Given;
    MuxedAfter(st, ps, k);
    if k > 0 {
      RepairBound(st, MuxAll(st, ps)[k - 1].dts, ps[k]);
      NeverTooLate(st, ps, latest, k - 1);
    } else {
      RepairBound(st, NOPTS, ps[k]);
    }
  }

  /** The packets i to j are all given a decoding time. */
  predicate Unbroken(st: Stream, ps: seq<Stamps>, i: nat, j: nat) {
    i <= j < |ps| && forall k :: i <= k <= j ==> Given(st, ps[k]).dts != NOPTS
  }

  /** Over any stretch of packets with decoding times these never go back, and grow by at least one a
      packet where the format is strict. */
  lemma {:induction false} RunOrdered(st: Stream, ps: seq<Stamps>, latest: Time, i: nat, j: nat)
    requires Watched(st) && Headroom(st, ps, latest) && Unbroken(st, ps, i, j)
    ensures MuxAll(st, ps)[j].dts >= MuxAll(st, ps)[i].dts + if st.nonStrict then 0 else j - i
    decreases j
  {
    hide MuxAll, Headroom, Given;
    if i < j {
      RunOrdered(st, ps, latest, i, j - 1);
      NextOrdered(st, ps, latest, j);
    }
  }

  lemma NextOrdered(st: Stream, ps: seq<Stamps>, latest: Time, j: nat)
    requires Watched(st) && Headroom(st, ps, latest) && 0 < j < |ps|
    requires Given(st, ps[j - 1]).dts != NOPTS && Given(st, ps[j]).dts != NOPTS
    ensures MuxAll(st, ps)[j].dts >= MuxAll(st, ps)[j - 1].dts + Gap(st)
  {
    hide MuxAll, Repaired, Given;
    MuxedAfter(st, ps, j - 1);
    MuxedAfter(st, ps, j);
    ShownAfterDecoded(st, if j == 1 then NOPTS else MuxAll(st, ps)[j - 2].dts, ps[j - 1]);
    NeverTooLate(st, ps, latest, j - 1);
    StepOrdered(st, MuxAll(st, ps)[j - 1].dts, ps[j]);
  }

  // ------------------------------------------------------------------ across gaps

  /** The decoding time a packet would get with nothing before it. */
  function Alone(g: Stamps): Time {
    if g.pts != NOPTS && g.dts > g.pts then g.pts else g.dts
  }

  /** The last decoding time there was, if any. */
  function LatestDts(out: seq<Stamps>): Time {
    if |out| == 0 then NOPTS
    else if out[|out| - 1].dts != NOPTS then out[|out| - 1].dts
    else LatestDts(out[..|out| - 1])
  }

  predicate Ordered(st: Stream, out: seq<Stamps>) {
    forall i, j :: 0 <= i < j < |out| && out[i].dts != NOPTS && out[j].dts != NOPTS ==>
      out[j].dts >= out[i].dts + Gap(st)
  }

  /** What a packet must meet when a decoding time came before it: there is a later time; and behind a
      packet without one, where the repair has forgotten it, the packet is late enough by itself. */
  predicate LateEnough(st: Stream, before: seq<Stamps>, p: Stamps) {
    Given(st, p).dts != NOPTS && LatestDts(before) != NOPTS ==>
      && LatestDts(before) + Gap(st) <= MAX
      && (LastDts(before) == NOPTS ==> Alone(Given(st, p)) >= LatestDts(before) + Gap(st))
  }

  lemma {:induction false} LatestIsLatest(st: Stream, out: seq<Stamps>, i: nat)
    requires Ordered(st, out) && i < |out| && out[i].dts != NOPTS
    ensures LatestDts(out) != NOPTS && out[i].dts <= LatestDts(out)
    ensures exists k :: 0 <= k < |out| && out[k].dts == LatestDts(out)
    decreases |out|
  {
    var n := |out| - 1;
    if out[n].dts == NOPTS {
      LatestIsLatest(st, out[..n], i);
      var k :| 0 <= k < n && out[..n][k].dts == LatestDts(out[..n]);
      assert out[k].dts == LatestDts(out);
    } else {
      assert out[n].dts == LatestDts(out);
    }
  }

  lemma {:induction false} NoneIsLatest(out: seq<Stamps>)
    requires LatestDts(out) != NOPTS
    ensures exists k :: 0 <= k < |out| && out[k].dts == LatestDts(out)
    decreases |out|
  {
    var n := |out| - 1;
    if out[n].dts == NOPTS {
      NoneIsLatest(out[..n]);
      var k :| 0 <= k < n && out[..n][k].dts == LatestDts(out[..n]);
      assert out[k].dts == LatestDts(out);
    } else {
      assert out[n].dts == LatestDts(out);
    }
  }

  /** A packet comes out past the latest decoding time exactly when it is late enough. */
  lemma LateEnoughIff(st: Stream, before: seq<Stamps>, p: Stamps)
    requires Watched(st)
    ensures var q := Repaired(st, LastDts(before), p);
            LateEnough(st, before, p) <==>
              (q.dts != NOPTS && LatestDts(before) != NOPTS ==> q.dts >= LatestDts(before) + Gap(st))
  {
    ShownAfterDecoded(st, LastDts(before), p);
    if LastDts(before) != NOPTS && Given(st, p).dts != NOPTS {
      StepOrdered(st, LastDts(before), p);
    }
  }

  /** An ordered run stays ordered exactly when the next time is past the latest. */
  lemma OrderedSnoc(st: Stream, before: seq<Stamps>, q: Stamps)
    ensures Ordered(st, before + [q]) <==>
            Ordered(st, before)
            && (q.dts != NOPTS && LatestDts(before) != NOPTS ==> q.dts >= LatestDts(before) + Gap(st))
  {
    var out, n := before + [q], |before|;
    if Ordered(st, out) {
      assert forall i :: 0 <= i < n ==> out[i] == before[i];
      if LatestDts(before) != NOPTS {
        NoneIsLatest(before);
        var k :| 0 <= k < n && before[k].dts == LatestDts(before);
        assert out[k].dts == LatestDts(before) && out[n] == q;
      }
    } else if Ordered(st, before) {
      forall i | 0 <= i < n && before[i].dts != NOPTS
        ensures LatestDts(before) != NOPTS && before[i].dts <= LatestDts(before)
      {
        LatestIsLatest(st, before, i);
      }
    }
  }

  predicate AllLateEnough(st: Stream, ps: seq<Stamps>) {
    forall j :: 0 <= j < |ps| ==> LateEnough(st, MuxAll(st, ps[..j]), ps[j])
  }

  lemma AllLateSnoc(st: Stream, ps: seq<Stamps>, p: Stamps)
    ensures AllLateEnough(st, ps + [p]) <==> AllLateEnough(st, ps) && LateEnough(st, MuxAll(st, ps), p)
  {
    hide MuxAll, LateEnough;
    var all := ps + [p];
    assert all[..|ps|] == ps;
    forall j | 0 <= j < |ps|
      ensures all[..j] == ps[..j] && all[j] == ps[j]
    {
    }
    if AllLateEnough(st, all) {
      forall j | 0 <= j < |ps|
        ensures LateEnough(st, MuxAll(st, ps[..j]), ps[j])
      {
        assert LateEnough(st, MuxAll(st, all[..j]), all[j]);
      }
      assert LateEnough(st, MuxAll(st, all[..|ps|]), all[|ps|]);
    }
  }

  /** Decoding times are in order over a whole run, gaps and all, exactly when every packet is late
      enough for what came before it. */
  lemma {:induction false} OrderedIff(st: Stream, ps: seq<Stamps>)
    requires Watched(st)
    ensures Ordered(st, MuxAll(st, ps)) <==> AllLateEnough(st, ps)
    decreases |ps|
  {
    if |ps| > 0 {
      var init, p := ps[..|ps| - 1], ps[|ps| - 1];
      var before := MuxAll(st, init);
      assert ps == init + [p] && MuxAll(st, ps) == before + [Repaired(st, LastDts(before), p)];
      hide Ordered, AllLateEnough, LateEnough, Repaired, MuxAll;
      OrderedIff(st, init);
      OrderedSnoc(st, before, Repaired(st, LastDts(before), p));
      LateEnoughIff(st, before, p);
      AllLateSnoc(st, init, p);
    }
  }

  lemma MuxSnoc(st: Stream, ps: seq<Stamps>, p: Stamps, q: Stamps)
    requires Repaired(st, LastDts(MuxAll(st, ps)), p) == q
    ensures MuxAll(st, ps + [p]) == MuxAll(st, ps) + [q]
  {
    assert (ps + [p])[..|ps|] == ps;
  }

  /** So order can be lost: ten, none, five stays ten, none, five. */
  lemma OrderCanBeLost(st: Stream)
    requires Watched(st) && !st.dropTimes && st.rescale(10) == 10 && st.rescale(5) == 5
    ensures var ps := [Stamps(10, 10), Stamps(NOPTS, NOPTS), Stamps(5, 5)]; MuxAll(st, ps) == ps && !Ordered(st, ps)
  {
    var p, q, r := Stamps(10, 10), Stamps(NOPTS, NOPTS), Stamps(5, 5);
    assert Repaired(st, NOPTS, p) == p && Repaired(st, 10, q) == q && Repaired(st, NOPTS, r) == r;
    hide Repaired;
    MuxSnoc(st, [], p, p);
    MuxSnoc(st, [p], q, q);
    MuxSnoc(st, [p, q], r, r);
    assert [] + [p] == [p] && [p] + [q] == [p, q] && [p, q] + [r] == [p, q, r];
    assert [p, q, r][0].dts == 10 && [p, q, r][2].dts == 5;
  }

  // ------------------------------------------------------------------ the stream

  /** An output stream. `accepted` is bookkeeping of the model: the packets let through the frame limit,
      in order; `muxed` is what the muxer was given. */
  class OutputStream {
    const st: Stream
    const counted: bool
    const maxFrames: int
    const maxQueue: nat
    var frameNumber: int
    var headerWritten: bool
    var queue: seq<Stamps>
    var capacity: nat
    var lastMuxDts: Time
    var packetsWritten: nat
    var muxed: seq<Stamps>
    ghost var accepted: seq<Stamps>

    /** Accepted packets are muxed, in flight, or queued, in that order. */
    ghost predicate Holds(inFlight: seq<Stamps>)
      reads this
    {
      && |muxed| <= |accepted| && accepted[|muxed|..] == inFlight + queue
      && muxed == MuxAll(st, accepted[..|muxed|])
      && lastMuxDts == LastDts(muxed) && packetsWritten == |muxed|
      && (counted ==> frameNumber == |accepted| <= Max(0, maxFrames))
      && |queue| <= capacity && 8 <= capacity <= Max(8, maxQueue)
    }

    constructor (st: Stream, counted: bool, maxFrames: int, maxQueue: nat)
      ensures this.st == st && this.counted == counted && this.maxFrames == maxFrames && this.maxQueue == maxQueue
      ensures Holds([]) && accepted == [] && !headerWritten && frameNumber == 0
    {
      this.st, this.counted, this.maxFrames, this.maxQueue := st, counted, maxFrames, maxQueue;
      frameNumber, headerWritten, queue, capacity := 0, false, [], 8;
      lastMuxDts, packetsWritten, muxed, accepted := NOPTS, 0, [], [];
    }

    /** Replaces the times of a packet to be decoded after it is shown. */
    method GuessTimes(p: Stamps) returns (q: Stamps)
      ensures q == Guess(lastMuxDts, p)
    {
      hide Wrap, R.MidPred, R.Min, Max, IsMedian;
      q := p;
      if p.dts != NOPTS && p.pts != NOPTS && p.dts > p.pts {
        SumIsMedian(p.pts, p.dts, lastMuxDts);
        var next := Wrap(lastMuxDts + 1);
        var least, most := R.Min(R.Min(p.pts, p.dts), next), Max(Max(p.pts, p.dts), next);
        var dts := Wrap(p.pts + p.dts + lastMuxDts + 1 - least - most);
        q := Stamps(dts, dts);
      }
    }

    /** Repairs a packet's times and hands it to the muxer. */
    method Mux(p: Stamps)
      modifies `lastMuxDts, `packetsWritten, `muxed
      ensures muxed == old(muxed) + [Repaired(st, old(lastMuxDts), p)]
      ensures lastMuxDts == LastDts(muxed) && packetsWritten == old(packetsWritten) + 1
    {
      hide Wrap, Guess;
      var q := p;
      if st.dropTimes {
        q := Stamps(NOPTS, NOPTS);
      }
      if q.pts != NOPTS {
        q := q.(pts := st.rescale(q.pts));
      }
      if q.dts != NOPTS {
        q := q.(dts := st.rescale(q.dts));
      }
      if !st.noTimestamps {
        q := GuessTimes(q);
        if (st.kind.Audio? || st.kind.Video? || st.kind.Subtitle?)
           && q.dts != NOPTS && !st.vp9Copy && lastMuxDts != NOPTS {
          var max := Wrap(lastMuxDts + R.Bit(!st.nonStrict));
          if q.dts < max {
            if q.pts >= q.dts {
              q := q.(pts := Max(q.pts, max));
            }
            q := q.(dts := max);
          }
        }
      }
      lastMuxDts := q.dts;
      packetsWritten := packetsWritten + 1;
      muxed := muxed + [q];
    }

    /** Whether a packet is beyond the frames asked for. */
    predicate Surplus()
      reads this
    {
      counted && frameNumber >= maxFrames
    }

    /** Takes a packet, new or from the queue. Returns false where the program gives up because the
        queue may grow no more. */
    method WritePacket(p: Stamps, unqueue: bool) returns (ok: bool)
      requires Holds(if unqueue then [p] else [])
      requires unqueue ==> headerWritten
      requires headerWritten && !unqueue ==> queue == []
      modifies this
      ensures ok <==> unqueue || headerWritten || old(Surplus()) || old(|queue|) < Max(8, maxQueue)
      ensures ok ==> Holds([])
      ensures ok ==> accepted == old(accepted) + if unqueue || old(Surplus()) then [] else [p]
      ensures queue == old(queue) + if ok && !unqueue && !headerWritten && !old(Surplus()) then [p] else []
      ensures headerWritten == old(headerWritten)
    {
      hide MuxAll, Repaired, LastDts;
      if counted && !unqueue {
        if frameNumber >= maxFrames {
          return true;
        }
        frameNumber := frameNumber + 1;
      }
      ghost var n := |muxed|;
      if !unqueue {
        assert (accepted + [p])[..n] == accepted[..n];
        accepted := accepted + [p];
      }
      if !headerWritten {
        if |queue| == capacity {
          var size := R.Min(2 * capacity, maxQueue);
          if size <= capacity {
            return false;
          }
          capacity := size;
        }
        queue := queue + [p];
        return true;
      }
      assert accepted[n..] == [p] + queue;
      MuxedNext(st, accepted, n);
      Mux(p);
      return true;
    }

    /** Writes the header, then whatever has been waiting for it. */
    method WriteHeader()
      requires Holds([]) && !headerWritten
      modifies this
      ensures Holds([]) && headerWritten && queue == []
      ensures accepted == old(accepted) && muxed == MuxAll(st, accepted)
    {
      headerWritten := true;
      while |queue| > 0
        invariant Holds([]) && headerWritten && accepted == old(accepted)
        decreases |queue|
      {
        var p := queue[0];
        queue := queue[1..];
        var _ := WritePacket(p, true);
      }
      assert accepted[..|muxed|] == accepted;
    }
  }
}
