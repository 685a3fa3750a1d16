/** Which pictures the frame-rate converter sends, and what a single call owes its input. */
module RatePictures {
  import opened RateConverter
  import opened RateTheorems

  // ------------------------------------------------------------------ which picture is sent

  /** No frame shows an earlier picture than the frame before it, nor one that has not come in; what is held
      is no older than what was shown, unless the recording is over or nothing is ever repeated. */
  predicate ShownInOrder(cfg: Config, s: Stream) {
    && (forall i, k :: 0 <= i < k < |s.shown| ==> s.shown[i] <= s.shown[k])
    && (forall k :: 0 <= k < |s.shown| ==> 0 <= s.shown[k] < s.inputs)
    && (s.hasLast ==> 0 <= s.held < s.inputs)
    && (Monotone(cfg.sync) && s.hasLast && InTime(cfg, s.syncOpts) ==>
          forall k :: 0 <= k < |s.shown| ==> s.shown[k] <= s.held)
    && (!Monotone(cfg.sync) && |s.lastNb0| == 3 ==> s.lastNb0 == [0, 0, 0])
  }

  /** In the other modes nothing is repeated, as no picture is ever sent twice. */
  lemma NoRepeats(cfg: Config, s: Stream, call: Call)
    requires Ready(cfg, s) && ShownInOrder(cfg, s) && !Monotone(cfg.sync)
    ensures FramePlan(cfg, s, call).nb0 == 0 && (call.Flush? ==> FramePlan(cfg, s, call).nb == 0)
    ensures VideoOut(cfg, s, call).stream.lastNb0 == [0, 0, 0]
  {
    PlanSane(cfg, s, call);
    var p := FramePlan(cfg, s, call);
    var s1 := Account(s, p, call.Picture?);
    if !TooMany(cfg, s1, p) {
      SendKeeps(cfg, Accept(s1, p, call.Picture?), 0, p.nb, p.nb0, call.Picture?);
      hide SendFrames;
    }
  }

  /** What a call leaves to repeat: the picture it was given if it ran to its end, else what it found. */
  lemma HeldAfter(cfg: Config, s: Stream, call: Call)
    requires Ready(cfg, s)
    ensures var r := VideoOut(cfg, s, call);
            && r.stream.inputs == s.inputs + Bit(call.Picture?)
            && (r.outcome.Done? ==> r.stream.hasLast == call.Picture? && r.stream.held == r.stream.inputs - 1)
            && (!r.outcome.Done? ==> r.stream.hasLast == s.hasLast && r.stream.held == s.held)
            && (call.Flush? && !s.hasLast ==> r.stream.shown == s.shown)
            && (r.outcome.TooManyDups? ==> r.stream.shown == s.shown)
            && (r.outcome.NoPicture? ==> call.Flush? && !s.hasLast)
            && (r.outcome.RecordingOver? ==> !InTime(cfg, r.stream.syncOpts))
  {
    PlanSane(cfg, s, call);
    var p := FramePlan(cfg, s, call);
    var s1 := Account(s, p, call.Picture?);
    if !TooMany(cfg, s1, p) {
      SendKeeps(cfg, Accept(s1, p, call.Picture?), 0, p.nb, p.nb0, call.Picture?);
      StopsInTime(cfg, Accept(s1, p, call.Picture?), 0, p.nb, p.nb0, call.Picture?);
      hide FramePlan;
    }
  }

  lemma {:induction false} StopsInTime(cfg: Config, s: Stream, i: int, nb: int, nb0: int, picture: bool)
    requires 0 <= i <= nb
    ensures var r := SendFrames(cfg, s, i, nb, nb0, picture);
            && (r.outcome.RecordingOver? ==> !InTime(cfg, r.stream.syncOpts))
            && (!r.outcome.RecordingOver? && !r.outcome.Done? ==> !picture)
            && (r.outcome.NoPicture? && nb == nb0 ==> !s.hasLast)
            && (!picture && !s.hasLast ==> r.stream.shown == s.shown)
    decreases nb - i
  {
    if i < nb {
      StopsInTime(cfg, SendOne(s, i < nb0 && s.hasLast), i + 1, nb, nb0, picture);
    }
  }

  /** Past the recording time nothing is sent. */
  lemma NothingPastTime(cfg: Config, s: Stream, call: Call)
    requires Ready(cfg, s) && !InTime(cfg, FramePlan(cfg, s, call).syncOpts)
    ensures VideoOut(cfg, s, call).stream.shown == s.shown
    ensures VideoOut(cfg, s, call).stream.syncOpts == FramePlan(cfg, s, call).syncOpts
  {
    hide FramePlan;
  }

  /** In order, as far as one call can break it. */
  lemma CallShowsInOrder(cfg: Config, s: Stream, call: Call)
    requires Ready(cfg, s) && ShownInOrder(cfg, s)
    ensures ShownInOrder(cfg, VideoOut(cfg, s, call).stream)
  {
    CallEffect(cfg, s, call);
    HeldAfter(cfg, s, call);
    var t := VideoOut(cfg, s, call).stream;
    var p := FramePlan(cfg, s, call);
    if Monotone(cfg.sync) {
      NeverMovesBack(cfg, s, call);
      if !InTime(cfg, p.syncOpts) {
        NothingPastTime(cfg, s, call);
      }
    } else {
      NoRepeats(cfg, s, call);
    }
    hide FramePlan, VideoOut, Ready;
    assert t.shown[..|s.shown|] == s.shown;
  }

  /** Pictures go to the encoder in the order they came, whatever the mode, the guards and the outcomes. */
  lemma {:induction false} PicturesInOrder(cfg: Config, s: Stream, calls: seq<Call>)
    requires Ready(cfg, s) && ShownInOrder(cfg, s)
    ensures ShownInOrder(cfg, Run(cfg, s, calls))
    decreases |calls|
  {
    if calls != [] {
      CallShowsInOrder(cfg, s, calls[0]);
      CallEffect(cfg, s, calls[0]);
      hide VideoOut, ShownInOrder, Ready;
      PicturesInOrder(cfg, VideoOut(cfg, s, calls[0]).stream, calls[1..]);
    }
  }

  /** How many of the first n pictures were never sent. */
  function Missing(n: nat, shown: seq<int>): nat {
    if n == 0 then 0 else Missing(n - 1, shown) + Bit(n - 1 !in shown)
  }

  /** Frames that show nothing new among the first n pictures change nothing. */
  lemma {:induction false} MissingKept(n: nat, shown: seq<int>, more: seq<int>)
    requires forall j :: 0 <= j < n ==> (j in shown <==> j in more)
    ensures Missing(n, shown) == Missing(n, more)
  {
    if n > 0 {
      MissingKept(n - 1, shown, more);
    }
  }

  /** Drops tell which pictures were never sent: all that are counted, or only held back as yet. */
  predicate DropsTell(s: Stream) {
    && s.hasLast && s.inputs > 0 && s.held == s.inputs - 1
    && (forall k :: 0 <= k < |s.shown| ==> s.shown[k] < s.inputs)
    && (s.lastDropped <==> s.inputs - 1 !in s.shown)
    && s.drop == Missing(s.inputs - Bit(s.lastDropped), s.shown)
  }

  /** What a completed call does to the counters and to what was shown. */
  lemma CompletedCall(cfg: Config, s: Stream, call: Call)
    requires Ready(cfg, s) && call.Picture? && Completes(cfg, s, call)
    ensures var p, t := FramePlan(cfg, s, call), VideoOut(cfg, s, call).stream;
            && 0 <= p.nb0 <= p.nb && |t.shown| == |s.shown| + p.nb
            && t.inputs == s.inputs + 1 && t.hasLast && t.held == s.inputs
            && t.lastDropped == (p.nb == p.nb0)
            && t.drop == s.drop + Bit(p.nb0 == 0 && s.lastDropped)
            && s.shown <= t.shown
            && (forall k :: |s.shown| <= k < |t.shown| ==>
                  t.shown[k] == if k - |s.shown| < p.nb0 && s.hasLast then s.held else s.inputs)
  {
    EndsIff(cfg, s, call);
    CallEffect(cfg, s, call);
    HeldAfter(cfg, s, call);
    PlanSane(cfg, s, call);
    var p := FramePlan(cfg, s, call);
    var s1 := Account(s, p, true);
    SendKeeps(cfg, Accept(s1, p, true), 0, p.nb, p.nb0, true);
    hide FramePlan, Completes, Ready, SendFrames;
  }

  lemma MissingAfter(s: Stream, t: Stream, nb: int, nb0: int)
    requires DropsTell(s) && 0 <= nb0 <= nb && |t.shown| == |s.shown| + nb && s.shown <= t.shown
    requires forall k :: |s.shown| <= k < |t.shown| ==> t.shown[k] == if k - |s.shown| < nb0 then s.held else s.inputs
    ensures forall j :: 0 <= j < s.inputs - 1 ==> (j in s.shown <==> j in t.shown)
    ensures s.inputs - 1 in t.shown <==> s.inputs - 1 in s.shown || nb0 > 0
    ensures s.inputs in t.shown <==> nb0 < nb
  {
    var n := |s.shown|;
    assert t.shown == s.shown + t.shown[n..];
    assert forall k :: 0 <= k < n ==> t.shown[k] == s.shown[k];
    if nb0 > 0 {
      assert t.shown[n] == s.held;
    }
    if nb0 < nb {
      assert t.shown[n + nb0] == s.inputs;
    }
  }

  /** Counting the two last pictures one by one. */
  lemma MissingNext(s: Stream, t: Stream)
    requires s.inputs > 0 && t.inputs == s.inputs + 1
    requires forall j :: 0 <= j < s.inputs - 1 ==> (j in s.shown <==> j in t.shown)
    ensures Missing(s.inputs, t.shown) == Missing(s.inputs - 1, s.shown) + Bit(s.inputs - 1 !in t.shown)
    ensures Missing(t.inputs, t.shown) == Missing(s.inputs, t.shown) + Bit(s.inputs !in t.shown)
    ensures Missing(s.inputs, s.shown) == Missing(s.inputs - 1, s.shown) + Bit(s.inputs - 1 !in s.shown)
  {
    MissingKept(s.inputs - 1, s.shown, t.shown);
  }

  /** The drops still tell after a call that sends nb frames, nb0 of them the picture before. */
  lemma TellsNext(s: Stream, t: Stream, nb: int, nb0: int)
    requires DropsTell(s) && 0 <= nb0 <= nb && |t.shown| == |s.shown| + nb && s.shown <= t.shown
    requires forall k :: |s.shown| <= k < |t.shown| ==> t.shown[k] == if k - |s.shown| < nb0 then s.held else s.inputs
    requires t.inputs == s.inputs + 1 && t.hasLast && t.held == s.inputs && t.lastDropped == (nb == nb0)
    requires t.drop == s.drop + Bit(nb0 == 0 && s.lastDropped)
    ensures DropsTell(t)
  {
    MissingAfter(s, t, nb, nb0);
    MissingNext(s, t);
    hide Missing;
    assert forall k :: 0 <= k < |s.shown| ==> t.shown[k] == s.shown[k];
  }

  lemma DropsStillTell(cfg: Config, s: Stream, call: Call)
    requires Ready(cfg, s) && call.Picture? && Completes(cfg, s, call) && DropsTell(s)
    ensures DropsTell(VideoOut(cfg, s, call).stream)
  {
    CompletedCall(cfg, s, call);
    var t, p := VideoOut(cfg, s, call).stream, FramePlan(cfg, s, call);
    hide FramePlan, VideoOut, Ready, Completes;
    assert s.hasLast;
    hide DropsTell;
    TellsNext(s, t, p.nb, p.nb0);
  }

  /** After a first picture the drops tell this exactly if that picture is not sent only as a repeat of one
      that was never held. */
  lemma DropsTellIff(cfg: Config, syncOpts: int, call: Call)
    requires Ready(cfg, Opened(syncOpts)) && call.Picture? && Completes(cfg, Opened(syncOpts), call)
    ensures var p := FramePlan(cfg, Opened(syncOpts), call);
            DropsTell(VideoOut(cfg, Opened(syncOpts), call).stream) <==> p.nb == 0 || p.nb0 < p.nb
  {
    var s := Opened(syncOpts);
    CompletedCall(cfg, s, call);
    var t, p := VideoOut(cfg, s, call).stream, FramePlan(cfg, s, call);
    hide FramePlan, VideoOut, Ready, Completes;
    assert Missing(1, t.shown) == Bit(0 !in t.shown);
    if p.nb > 0 {
      assert t.shown[0] == 0;
    }
  }

  /** So a first picture that comes late is sent, and still counted as held back, and then as dropped. */
  lemma SentYetDropped(cfg: Config)
    requires PlainCfr(cfg) && cfg.sync.Cfr? && cfg.recordingLimit.None? && cfg.dupLimit >= 2.0
    ensures Ready(cfg, Opened(0))
    ensures var t := Run(cfg, Opened(0), [Picture(2.1, 0.0), Picture(3.0, 0.0)]);
            t.shown == [0, 0, 1] && t.drop == 1 && !DropsTell(t)
  {
    var s, a, b := Opened(0), Picture(2.1, 0.0), Picture(3.0, 0.0);
    assert FramePlan(cfg, s, a) == Plan(2, 2, 0);
    CompletedCall(cfg, s, a);
    SyncAfter(cfg, s, a);
    RunTwo(cfg, s, a, b);
    var t := VideoOut(cfg, s, a).stream;
    hide VideoOut, Ready, Run;
    assert FramePlan(cfg, t, b) == Plan(1, 0, 2);
    CompletedCall(cfg, t, b);
    var u := VideoOut(cfg, t, b).stream;
    assert t.shown == [0, 0] && u.shown == [0, 0, 1];
    assert 0 in u.shown && 1 in u.shown;
    assert Missing(2, u.shown) == Missing(1, u.shown) == Missing(0, u.shown);
  }

  /** Over any run of pictures that all go through: what was dropped or is held back was never sent, and all
      else was. */
  lemma {:induction false} DropsKeepTelling(cfg: Config, s: Stream, calls: seq<Call>)
    requires Ready(cfg, s) && AllComplete(cfg, s, calls) && DropsTell(s)
    requires forall i :: 0 <= i < |calls| ==> calls[i].Picture?
    ensures DropsTell(Run(cfg, s, calls))
    decreases |calls|
  {
    if calls != [] {
      DropsStillTell(cfg, s, calls[0]);
      CallEffect(cfg, s, calls[0]);
      hide VideoOut, DropsTell, Ready, Completes;
      DropsKeepTelling(cfg, VideoOut(cfg, s, calls[0]).stream, calls[1..]);
    }
  }

  // ------------------------------------------------------------------ what a single call owes its input

  /** Rounding gives the nearest integer, and of two as near the even one. */
  lemma RoundsToEven(x: real, n: int)
    ensures Lrint(x) == n <==>
            -0.5 <= x - n as real <= 0.5 && ((x - n as real == 0.5 || x - n as real == -0.5) ==> n % 2 == 0)
  {
  }

  /** Which mode is chosen where it is left open: never to drop times, to pass them through for formats that
      keep none, constant from the first frame's time for a lone stream or copied times. */
  lemma ChosenModeIff(output: Output, input: Input, copyTs: bool)
    ensures var sync := Resolve(Auto, output, input, copyTs);
            && (sync == Passthrough <==> !output.avi && output.variableFps && output.noTimestamps)
            && (sync == Vfr <==> output.avi || (output.variableFps && !output.noTimestamps))
            && (sync == Vscfr <==> !output.avi && !output.variableFps && (copyTs || input == Input(1, 0)))
            && sync != DropTimes
  {
  }

  /** A frame lasts what its packet says, if that is a tick at least; else the shortest of the known rates'
      ticks, or no time at all without the filters' rate. */
  lemma DurationIs(t: Timing)
    requires t.forcedTicks.Some? ==> t.forcedTicks.value > 0.0
    requires t.filterTicks.Some? ==> t.filterTicks.value > 0.0
    ensures t.packetTicks.Some? && t.packetTicks.value > 0.5 ==>
              -0.5 <= Duration(t) - t.packetTicks.value <= 0.5 && Duration(t).Floor as real == Duration(t)
    ensures !(t.packetTicks.Some? && t.packetTicks.value > 0.5) ==>
              && (t.filterTicks.None? ==> Duration(t) == 0.0)
              && (t.filterTicks.Some? ==>
                    && (Duration(t) == t.filterTicks.value || Some(Duration(t)) == t.forcedTicks)
                    && Duration(t) <= t.filterTicks.value
                    && (t.forcedTicks.Some? ==> Duration(t) <= t.forcedTicks.value))
  {
  }

  /** The frames a call adds, how many of them may repeat, and how far behind they were. */
  predicate FollowsInput(behind: real, start: real, sent: int, repeats: int) {
    && (sent == 0 <==> behind < -1.1)
    && (-1.1 <= behind <= 1.1 ==> sent == 1)
    && (behind > 1.1 ==> -0.5 <= sent as real - behind <= 0.5)
    && (start <= 1.1 || behind <= 1.1 ==> repeats == 0)
    && (start > 1.1 && behind > 1.1 ==>
          repeats <= sent && repeats as real <= start - 0.1 && (repeats as real >= start - 1.1 || repeats == sent))
  }

  /** At constant rate a call sends as many frames as the output is behind, and the first of them, as many
      as would be due before the picture begins, show the picture before. */
  lemma CfrFollowsInput(cfg: Config, s: Stream, call: Call)
    requires Ready(cfg, s) && PlainCfr(cfg) && call.Picture? && Completes(cfg, s, call) && !SetsTime(cfg, s, call)
    ensures var t, n := VideoOut(cfg, s, call).stream, |s.sent|;
            && Ready(cfg, t)
            && FollowsInput(Drift(End(call), s), Drift(call.ipts, s), |t.sent| - n, t.lastNb0[0])
            && t.lastNb0[1..] == s.lastNb0[..2]
            && forall k :: n <= k < |t.sent| ==>
                 && t.sent[k] == s.syncOpts + k - n
                 && t.shown[k] == if k - n < t.lastNb0[0] && s.hasLast then s.held else s.inputs
  {
    CfrPlanIs(cfg, s, call);
    CallEffect(cfg, s, call);
    EndsIff(cfg, s, call);
    HeldAfter(cfg, s, call);
    HistoryAfter(cfg, s, call);
    hide FramePlan, VideoOut, Completes, FollowsInput;
  }

  lemma CfrPlanIs(cfg: Config, s: Stream, call: Call)
    requires Ready(cfg, s) && PlainCfr(cfg) && call.Picture? && !SetsTime(cfg, s, call)
    ensures var p := FramePlan(cfg, s, call);
            p.syncOpts == s.syncOpts && FollowsInput(Drift(End(call), s), Drift(call.ipts, s), p.nb, p.nb0)
  {
    LrintNear(Drift(End(call), s));
    LrintNear(Drift(call.ipts, s) - 0.6);
    hide Lrint;
  }

  /** The history of repeats, by which the flush goes. */
  lemma HistoryAfter(cfg: Config, s: Stream, call: Call)
    requires Ready(cfg, s)
    ensures VideoOut(cfg, s, call).stream.lastNb0 == [FramePlan(cfg, s, call).nb0] + s.lastNb0[..2]
  {
    PlanSane(cfg, s, call);
    var p := FramePlan(cfg, s, call);
    var s1 := Account(s, p, call.Picture?);
    if !TooMany(cfg, s1, p) {
      SendKeeps(cfg, Accept(s1, p, call.Picture?), 0, p.nb, p.nb0, call.Picture?);
      hide SendFrames;
    }
    hide FramePlan;
  }

  /** A drop threshold drops a picture that is not far enough ahead, other than the first frame. */
  lemma ThresholdDrops(cfg: Config, s: Stream, call: Call)
    requires Ready(cfg, s) && call.Picture? && (cfg.sync.Cfr? || cfg.sync.Vscfr?) && s.frameNumber != 0
    requires cfg.dropThreshold != 0.0 && Drift(End(call), s) < cfg.dropThreshold
    ensures var t := VideoOut(cfg, s, call).stream; t.sent == s.sent && t.syncOpts == s.syncOpts
  {
    CallEffect(cfg, s, call);
    var p := FramePlan(cfg, s, call);
    assert p.nb <= 0 && p.syncOpts == s.syncOpts;
    hide FramePlan, VideoOut, Ready;
  }

  /** And it changes nothing else: not for the first frame, nor for one that far ahead. */
  lemma ThresholdSpares(cfg: Config, s: Stream, call: Call)
    requires Ready(cfg, s) && call.Picture?
    requires s.frameNumber == 0 || Drift(End(call), s) >= cfg.dropThreshold || cfg.sync.Vfr? || !Monotone(cfg.sync)
    ensures FramePlan(cfg, s, call) == FramePlan(cfg.(dropThreshold := 0.0), s, call)
  {
  }

  /** The limit on frames takes no more away than it must. */
  lemma CappedAsNeeded(cfg: Config, s: Stream, call: Call)
    requires Ready(cfg, s) && cfg.maxFrames.Some?
    ensures var p, free := FramePlan(cfg, s, call), FramePlan(cfg.(maxFrames := None), s, call);
            var left := cfg.maxFrames.value - s.frameNumber;
            && p.syncOpts == free.syncOpts
            && (free.nb <= left ==> p == free)
            && (free.nb > left ==> p.nb == left && p.nb0 == Min(free.nb0, left))
  {
  }

  /** At the end the last picture is repeated as often as the median of the last three counts. */
  lemma FlushRepeats(cfg: Config, s: Stream)
    requires Ready(cfg, s) && cfg.maxFrames.None? && s.hasLast && Completes(cfg, s, Flush)
    ensures var t, h := VideoOut(cfg, s, Flush).stream, s.lastNb0;
            && Ready(cfg, t)
            && (forall k :: |s.sent| <= k < |t.sent| ==> t.shown[k] == s.held && t.sent[k] == s.syncOpts + k - |s.sent|)
            && var n := |t.sent| - |s.sent|;
               && n in h
               && Bit(h[0] < n) + Bit(h[1] < n) + Bit(h[2] < n) <= 1
               && Bit(h[0] > n) + Bit(h[1] > n) + Bit(h[2] > n) <= 1
  {
    CallEffect(cfg, s, Flush);
    EndsIff(cfg, s, Flush);
    var p := FramePlan(cfg, s, Flush);
    assert p == Plan(p.nb, p.nb, s.syncOpts);
    hide VideoOut, Ready, Completes;
  }
}
