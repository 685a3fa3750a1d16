/** Claims about whole runs of the frame-rate converter. */
module RateTheorems {
  import opened RateConverter

  /** A stream before its first frame: any first timestamp, all counters zero. */
  function Opened(syncOpts: int): Stream {
    Stream(syncOpts, 0, [0, 0, 0], false, false, 0, 0, 0, [], 0, [])
  }

  lemma OpenedReady(cfg: Config, syncOpts: int)
    requires cfg.maxFrames.Some? ==> cfg.maxFrames.value >= 0
    ensures Ready(cfg, Opened(syncOpts))
  {
  }

  /** The stream after a list of calls. */
  function Run(cfg: Config, s: Stream, calls: seq<Call>): (t: Stream)
    requires Ready(cfg, s)
    ensures Ready(cfg, t)
    decreases |calls|
  {
    if calls == [] then s
    else
      CallEffect(cfg, s, calls[0]);
      Run(cfg, VideoOut(cfg, s, calls[0]).stream, calls[1..])
  }

  // ------------------------------------------------------------------ which calls run to their end

  predicate InTime(cfg: Config, t: int) {
    cfg.recordingLimit.Some? ==> t < cfg.recordingLimit.value
  }

  /** The guards of a call: its plan has not too many duplicates; and if frames are to be sent, there is
      a picture to send and the last of them is within the recording time. */
  predicate Completes(cfg: Config, s: Stream, call: Call)
    requires Ready(cfg, s)
  {
    var p := FramePlan(cfg, s, call);
    && !TooMany(cfg, s, p)
    && (p.nb == 0 || ((call.Picture? || s.hasLast) && InTime(cfg, p.syncOpts + p.nb - 1)))
  }

  /** The sending loop ends by itself exactly when it has something to send and the last frame is in time. */
  lemma {:induction false} SendsAllIff(cfg: Config, s: Stream, i: int, nb: int, nb0: int, picture: bool)
    requires 0 <= i <= nb && (picture || nb0 == nb)
    ensures SendFrames(cfg, s, i, nb, nb0, picture).outcome.Done? <==>
              i == nb || ((picture || s.hasLast) && InTime(cfg, s.syncOpts + nb - i - 1))
    decreases nb - i
  {
    if i < nb {
      var s' := SendOne(s, i < nb0 && s.hasLast);
      SendsAllIff(cfg, s', i + 1, nb, nb0, picture);
    }
  }

  /** How a call ends is decided by its guards. */
  lemma EndsIff(cfg: Config, s: Stream, call: Call)
    requires Ready(cfg, s)
    ensures VideoOut(cfg, s, call).outcome.Done? <==> Completes(cfg, s, call)
    ensures VideoOut(cfg, s, call).outcome.TooManyDups? <==> TooMany(cfg, s, FramePlan(cfg, s, call))
  {
    PlanSane(cfg, s, call);
    var p := FramePlan(cfg, s, call);
    var s1 := Account(s, p, call.Picture?);
    if !TooMany(cfg, s1, p) {
      SendsAllIff(cfg, Accept(s1, p, call.Picture?), 0, p.nb, p.nb0, call.Picture?);
      SendKeeps(cfg, Accept(s1, p, call.Picture?), 0, p.nb, p.nb0, call.Picture?);
    }
    hide FramePlan, SendFrames;
  }

  /** Every call of the run goes through to its end. */
  predicate AllComplete(cfg: Config, s: Stream, calls: seq<Call>)
    requires Ready(cfg, s)
    decreases |calls|
  {
    calls != [] ==>
      && Completes(cfg, s, calls[0])
      && (CallEffect(cfg, s, calls[0]); AllComplete(cfg, VideoOut(cfg, s, calls[0]).stream, calls[1..]))
  }

  // ------------------------------------------------------------------ duplicates and drops

  /** Zero when the books balance: frames sent and the one held back, against frames received, plus
      duplicates, less drops. */
  function Imbalance(s: Stream): int {
    |s.sent| + Bit(s.lastDropped) - (s.inputs + s.dup - s.drop)
  }

  /** There are always enough frames to cover the fresh ones. */
  lemma FreshFits(cfg: Config, s: Stream, call: Call)
    requires Ready(cfg, s)
    ensures FramePlan(cfg, s, call).nb >= Fresh(s, FramePlan(cfg, s, call))
  {
  }

  /** How far one call moves the balance, by how it ended. */
  lemma BalanceMoves(cfg: Config, s: Stream, call: Call)
    requires Ready(cfg, s)
    ensures var p, r := FramePlan(cfg, s, call), VideoOut(cfg, s, call);
            Imbalance(r.stream) - Imbalance(s) ==
              if r.outcome.TooManyDups? then Bit(p.nb0 == 0 && s.lastDropped) + Bit(call.Flush?)
              else |r.stream.sent| - |s.sent| - p.nb
  {
    FreshFits(cfg, s, call);
    PlanSane(cfg, s, call);
    var p := FramePlan(cfg, s, call);
    var s1 := Account(s, p, call.Picture?);
    if !TooMany(cfg, s1, p) {
      SendKeeps(cfg, Accept(s1, p, call.Picture?), 0, p.nb, p.nb0, call.Picture?);
      hide FramePlan;
    }
  }

  /** The guards under which a call keeps the books: it completes; or it refuses too many duplicates of a
      picture, and no held frame is given up for it. */
  predicate Keeps(cfg: Config, s: Stream, call: Call)
    requires Ready(cfg, s)
  {
    var p := FramePlan(cfg, s, call);
    Completes(cfg, s, call) || (TooMany(cfg, s, p) && call.Picture? && !(p.nb0 == 0 && s.lastDropped))
  }

  lemma BalanceKeptIff(cfg: Config, s: Stream, call: Call)
    requires Ready(cfg, s)
    ensures Imbalance(VideoOut(cfg, s, call).stream) == Imbalance(s) <==> Keeps(cfg, s, call)
  {
    hide FramePlan, VideoOut, Completes, TooMany, Ready, Imbalance;
    BalanceMoves(cfg, s, call);
    DoneIffAllSent(cfg, s, call);
    EndsIff(cfg, s, call);
  }

  lemma DoneIffAllSent(cfg: Config, s: Stream, call: Call)
    requires Ready(cfg, s)
    ensures var p, r := FramePlan(cfg, s, call), VideoOut(cfg, s, call);
            !r.outcome.TooManyDups? ==> (r.outcome.Done? <==> |r.stream.sent| - |s.sent| == p.nb)
  {
    PlanSane(cfg, s, call);
    var p := FramePlan(cfg, s, call);
    var s1 := Account(s, p, call.Picture?);
    if !TooMany(cfg, s1, p) {
      SendKeeps(cfg, Accept(s1, p, call.Picture?), 0, p.nb, p.nb0, call.Picture?);
    }
  }

  function Pictures(calls: seq<Call>): nat {
    if calls == [] then 0 else Bit(calls[0].Picture?) + Pictures(calls[1..])
  }

  lemma InputsCounted(cfg: Config, s: Stream, call: Call)
    requires Ready(cfg, s)
    ensures VideoOut(cfg, s, call).stream.inputs == s.inputs + Bit(call.Picture?)
  {
    PlanSane(cfg, s, call);
    var p := FramePlan(cfg, s, call);
    var s1 := Account(s, p, call.Picture?);
    if !TooMany(cfg, s1, p) {
      SendKeeps(cfg, Accept(s1, p, call.Picture?), 0, p.nb, p.nb0, call.Picture?);
    }
  }

  /** Every call of the run keeps the books. */
  predicate AllKeep(cfg: Config, s: Stream, calls: seq<Call>)
    requires Ready(cfg, s)
    decreases |calls|
  {
    calls != [] ==>
      && Keeps(cfg, s, calls[0])
      && (CallEffect(cfg, s, calls[0]); AllKeep(cfg, VideoOut(cfg, s, calls[0]).stream, calls[1..]))
  }

  /** After each call the books are as they were at the start. */
  predicate Balanced(cfg: Config, s: Stream, calls: seq<Call>, balance: int)
    requires Ready(cfg, s)
  {
    forall n :: 0 <= n <= |calls| ==> Imbalance(Run(cfg, s, calls[..n])) == balance
  }

  lemma RunFirst(cfg: Config, s: Stream, calls: seq<Call>, n: nat)
    requires Ready(cfg, s) && 0 < n <= |calls|
    ensures Ready(cfg, VideoOut(cfg, s, calls[0]).stream)
    ensures Run(cfg, s, calls[..n]) == Run(cfg, VideoOut(cfg, s, calls[0]).stream, calls[1..][..n - 1])
  {
    CallEffect(cfg, s, calls[0]);
    hide VideoOut, Ready;
    assert calls[..n][1..] == calls[1..][..n - 1];
  }

  /** Over a run as over a call, one step further. */
  lemma BalancedFirst(cfg: Config, s: Stream, calls: seq<Call>, balance: int)
    requires Ready(cfg, s) && calls != []
    ensures Ready(cfg, VideoOut(cfg, s, calls[0]).stream)
    ensures Balanced(cfg, s, calls, balance) <==>
            Imbalance(s) == balance && Balanced(cfg, VideoOut(cfg, s, calls[0]).stream, calls[1..], balance)
  {
    CallEffect(cfg, s, calls[0]);
    var t := VideoOut(cfg, s, calls[0]).stream;
    hide VideoOut, Imbalance, Ready;
    assert Run(cfg, s, calls[..0]) == s;
    forall n: nat | 0 < n <= |calls|
      ensures Run(cfg, s, calls[..n]) == Run(cfg, t, calls[1..][..n - 1])
    {
      RunFirst(cfg, s, calls, n);
    }
    hide Run;
    if Balanced(cfg, s, calls, balance) {
      forall n | 0 <= n <= |calls[1..]|
        ensures Imbalance(Run(cfg, t, calls[1..][..n])) == balance
      {
        assert Imbalance(Run(cfg, s, calls[..n + 1])) == balance;
      }
    }
  }

  /** The books balance after every call of a run exactly when every call meets its guards. */
  lemma {:induction false} BalancedIff(cfg: Config, s: Stream, calls: seq<Call>)
    requires Ready(cfg, s)
    ensures Balanced(cfg, s, calls, Imbalance(s)) <==> AllKeep(cfg, s, calls)
    decreases |calls|
  {
    hide VideoOut, Imbalance, Keeps, Balanced;
    if calls == [] {
      BalancedEmpty(cfg, s);
    } else {
      BalanceKeptIff(cfg, s, calls[0]);
      BalancedFirst(cfg, s, calls, Imbalance(s));
      var t := VideoOut(cfg, s, calls[0]).stream;
      BalancedIff(cfg, t, calls[1..]);
      if Balanced(cfg, t, calls[1..], Imbalance(s)) {
        BalancedNow(cfg, t, calls[1..], Imbalance(s));
      }
    }
  }

  lemma BalancedEmpty(cfg: Config, s: Stream)
    requires Ready(cfg, s)
    ensures Balanced(cfg, s, [], Imbalance(s))
  {
    hide Imbalance;
  }

  lemma BalancedNow(cfg: Config, s: Stream, calls: seq<Call>, balance: int)
    requires Ready(cfg, s) && Balanced(cfg, s, calls, balance)
    ensures Imbalance(s) == balance
  {
    hide Imbalance;
    assert Run(cfg, s, calls[..0]) == s;
  }

  lemma {:induction false} RunInputs(cfg: Config, s: Stream, calls: seq<Call>)
    requires Ready(cfg, s)
    ensures Run(cfg, s, calls).inputs == s.inputs + Pictures(calls)
    decreases |calls|
  {
    if calls != [] {
      InputsCounted(cfg, s, calls[0]);
      CallEffect(cfg, s, calls[0]);
      hide VideoOut, Ready;
      RunInputs(cfg, VideoOut(cfg, s, calls[0]).stream, calls[1..]);
    }
  }

  /** Conservation over a whole run: frames encoded, and the one held back if any, are the pictures
      received, plus the duplicates, less the drops. */
  lemma Conservation(cfg: Config, syncOpts: int, calls: seq<Call>)
    requires cfg.maxFrames.Some? ==> cfg.maxFrames.value >= 0
    requires Ready(cfg, Opened(syncOpts)) && AllKeep(cfg, Opened(syncOpts), calls)
    ensures var t := Run(cfg, Opened(syncOpts), calls);
            |t.sent| + Bit(t.lastDropped) == Pictures(calls) + t.dup - t.drop
  {
    hide VideoOut, Ready, Run, AllKeep;
    BalancedIff(cfg, Opened(syncOpts), calls);
    assert calls[..|calls|] == calls;
    RunInputs(cfg, Opened(syncOpts), calls);
  }

  // ------------------------------------------------------------------ timestamps

  predicate Increasing(ts: seq<int>) {
    forall i, k :: 0 <= i < k < |ts| ==> ts[i] < ts[k]
  }

  /** All frames so far came before the next timestamp. */
  predicate OnTime(s: Stream) {
    Increasing(s.sent) && forall i :: 0 <= i < |s.sent| ==> s.sent[i] < s.syncOpts
  }

  predicate Monotone(sync: Sync) {
    sync.Cfr? || sync.Vscfr? || sync.Vfr?
  }

  /** In these modes the plan never moves the next timestamp back. */
  lemma NeverMovesBack(cfg: Config, s: Stream, call: Call)
    requires Ready(cfg, s) && Monotone(cfg.sync)
    ensures FramePlan(cfg, s, call).syncOpts >= s.syncOpts
  {
  }

  lemma CallStaysOnTime(cfg: Config, s: Stream, call: Call)
    requires Ready(cfg, s) && Monotone(cfg.sync) && OnTime(s)
    ensures OnTime(VideoOut(cfg, s, call).stream)
  {
    CallEffect(cfg, s, call);
    NeverMovesBack(cfg, s, call);
    hide FramePlan, VideoOut, Ready;
    assert VideoOut(cfg, s, call).stream.sent[..|s.sent|] == s.sent;
  }

  /** Strictly increasing timestamps over any run: any times, durations, duplicates, early returns and
      flushes. */
  lemma {:induction false} TimestampsIncrease(cfg: Config, s: Stream, calls: seq<Call>)
    requires Ready(cfg, s) && Monotone(cfg.sync) && OnTime(s)
    ensures OnTime(Run(cfg, s, calls))
    decreases |calls|
  {
    if calls != [] {
      CallStaysOnTime(cfg, s, calls[0]);
      CallEffect(cfg, s, calls[0]);
      hide VideoOut, OnTime, Ready;
      TimestampsIncrease(cfg, VideoOut(cfg, s, calls[0]).stream, calls[1..]);
    }
  }

  lemma RunTwo(cfg: Config, s: Stream, a: Call, b: Call)
    requires Ready(cfg, s)
    ensures Ready(cfg, VideoOut(cfg, s, a).stream)
    ensures Run(cfg, s, [a, b]) == VideoOut(cfg, VideoOut(cfg, s, a).stream, b).stream
  {
    CallEffect(cfg, s, a);
    var t := VideoOut(cfg, s, a).stream;
    CallEffect(cfg, t, b);
    hide VideoOut, Ready;
    assert [a, b][1..] == [b] && [b][1..] == [];
    assert Run(cfg, t, [b]) == Run(cfg, VideoOut(cfg, t, b).stream, []);
  }

  lemma SentOne(cfg: Config, s: Stream, call: Call, t: int)
    requires Ready(cfg, s) && !Monotone(cfg.sync)
    requires cfg.maxFrames.None? && cfg.recordingLimit.None? && cfg.dupLimit >= 1.0
    requires call.Picture? && Lrint(call.ipts) == t
    ensures VideoOut(cfg, s, call).stream.sent == s.sent + [t]
  {
    var p := FramePlan(cfg, s, call);
    assert p == Plan(1, 0, t);
    hide FramePlan, Ready;
    var s1 := Account(s, p, true).(lastDropped := false);
    var s2 := SendOne(s1, false);
    assert SendFrames(cfg, s2, 1, 1, 0, true) == Result(s2, Done);
    assert SendFrames(cfg, s1, 0, 1, 0, true) == Result(s2, Done);
  }

  lemma LrintWhole(x: real, n: int)
    requires x == n as real
    ensures Lrint(x) == n
  {
  }

  /** Passing input times through, a backward jump goes straight to the encoder. */
  lemma PassthroughJumpsBack(cfg: Config)
    requires !Monotone(cfg.sync) && cfg.maxFrames.None? && cfg.recordingLimit.None? && cfg.dupLimit >= 1.0
    ensures Ready(cfg, Opened(0))
    ensures Run(cfg, Opened(0), [Picture(5.0, 0.0), Picture(3.0, 0.0)]).sent == [5, 3]
  {
    hide Run, VideoOut, Ready, Lrint;
    var a, b := Picture(5.0, 0.0), Picture(3.0, 0.0);
    LrintWhole(5.0, 5);
    LrintWhole(3.0, 3);
    OpenedReady(cfg, 0);
    assert [] + [5] + [3] == [5, 3];
    RunTwo(cfg, Opened(0), a, b);
    SentOne(cfg, Opened(0), a, 5);
    SentOne(cfg, VideoOut(cfg, Opened(0), a).stream, b, 3);
  }

  ghost predicate AlwaysIncreasing(cfg: Config)
    requires Ready(cfg, Opened(0))
  {
    forall calls: seq<Call> :: Increasing(Run(cfg, Opened(0), calls).sent)
  }

  lemma MonotoneIncreases(cfg: Config)
    requires Ready(cfg, Opened(0)) && Monotone(cfg.sync)
    ensures AlwaysIncreasing(cfg)
  {
    forall calls: seq<Call>
      ensures Increasing(Run(cfg, Opened(0), calls).sent)
    {
      TimestampsIncrease(cfg, Opened(0), calls);
      hide Run, Ready;
    }
  }

  lemma PassthroughDoesNot(cfg: Config)
    requires !Monotone(cfg.sync) && cfg.maxFrames.None? && cfg.recordingLimit.None? && cfg.dupLimit >= 1.0
    requires Ready(cfg, Opened(0))
    ensures !AlwaysIncreasing(cfg)
  {
    hide Run, Ready, Opened;
    PassthroughJumpsBack(cfg);
    var sent := Run(cfg, Opened(0), [Picture(5.0, 0.0), Picture(3.0, 0.0)]).sent;
    assert sent[0] > sent[1];
  }

  /** Which modes give strictly increasing timestamps on every run. */
  lemma IncreasingIff(cfg: Config)
    requires cfg.maxFrames.None? && cfg.recordingLimit.None? && cfg.dupLimit >= 1.0
    ensures Ready(cfg, Opened(0))
    ensures Monotone(cfg.sync) <==> AlwaysIncreasing(cfg)
  {
    hide Run, AlwaysIncreasing;
    OpenedReady(cfg, 0);
    if Monotone(cfg.sync) {
      MonotoneIncreases(cfg);
    } else {
      PassthroughDoesNot(cfg);
    }
  }

  /** Left to itself the program chooses such a mode, except for formats of variable rate that keep no
      timestamps; and then, as when asked for a mode, the mode decides. */
  lemma ResolvedIncreasesIff(cfg: Config, wanted: Wanted, output: Output, input: Input, copyTs: bool)
    requires cfg.maxFrames.None? && cfg.recordingLimit.None? && cfg.dupLimit >= 1.0
    requires cfg.sync == Resolve(wanted, output, input, copyTs)
    ensures Ready(cfg, Opened(0))
    ensures AlwaysIncreasing(cfg) <==>
            match wanted
            case Auto => output.avi || !output.variableFps || !output.noTimestamps
            case Explicit(sync) => sync.Cfr? || sync.Vscfr? || sync.Vfr?
  {
    hide AlwaysIncreasing;
    IncreasingIff(cfg);
  }

  // ------------------------------------------------------------------ drift

  /** Constant rate, no drop threshold, no cap. */
  predicate PlainCfr(cfg: Config) {
    (cfg.sync.Cfr? || cfg.sync.Vscfr?) && cfg.dropThreshold == 0.0 && cfg.maxFrames.None?
  }

  /** A first frame half a tick late or more sets the time instead of being caught up with. */
  predicate SetsTime(cfg: Config, s: Stream, call: Call) {
    cfg.sync.Vscfr? && s.frameNumber == 0 && call.Picture? && call.ipts - s.syncOpts as real >= 0.5
  }

  function End(call: Call): real
    requires call.Picture?
  {
    call.ipts + call.duration
  }

  /** How far the end of the last input lies ahead of the next output tick. */
  function Drift(end: real, s: Stream): real {
    end - s.syncOpts as real
  }

  lemma SyncAfter(cfg: Config, s: Stream, call: Call)
    requires Ready(cfg, s) && Completes(cfg, s, call)
    ensures var p := FramePlan(cfg, s, call); VideoOut(cfg, s, call).stream.syncOpts == p.syncOpts + p.nb
  {
    CallEffect(cfg, s, call);
    EndsIff(cfg, s, call);
    hide FramePlan, VideoOut, Ready, Completes;
  }

  /** After a call that completes the output is at most half a tick behind; and it runs ahead by at most
      2.1 ticks, or by no more than it did before the call. */
  lemma DriftAfterCall(cfg: Config, s: Stream, call: Call)
    requires Ready(cfg, s) && PlainCfr(cfg) && call.Picture? && Completes(cfg, s, call) && !SetsTime(cfg, s, call)
    ensures Drift(End(call), VideoOut(cfg, s, call).stream) <= 0.5
    ensures Drift(End(call), s) >= -2.1 ==> Drift(End(call), VideoOut(cfg, s, call).stream) >= -2.1
  {
    SyncAfter(cfg, s, call);
    var delta := call.ipts - s.syncOpts as real + call.duration;
    var p := FramePlan(cfg, s, call);
    assert p.syncOpts == s.syncOpts && p.nb == if delta < -1.1 then 0 else if delta > 1.1 then Lrint(delta) else 1;
    LrintNear(delta);
    hide FramePlan, VideoOut, Ready, Completes, Lrint;
  }

  /** Durations are never negative, since rates are not. */
  lemma DurationNonNegative(t: Timing)
    requires t.filterTicks.Some? ==> t.filterTicks.value > 0.0
    requires t.forcedTicks.Some? ==> t.forcedTicks.value > 0.0
    ensures Duration(t) >= 0.0
  {
  }

  /** After a first frame that sets the time the drift is what two roundings and a whole tick can make. */
  lemma DriftAfterSettingTime(cfg: Config, s: Stream, call: Call)
    requires Ready(cfg, s) && PlainCfr(cfg) && Completes(cfg, s, call) && SetsTime(cfg, s, call) && call.duration >= 0.0
    ensures -1.5 <= Drift(End(call), VideoOut(cfg, s, call).stream) <= 1.0
  {
    SyncAfter(cfg, s, call);
    var p := FramePlan(cfg, s, call);
    assert p.syncOpts == Lrint(call.ipts) && p.nb == if call.duration > 1.1 then Lrint(call.duration) else 1;
    LrintNear(call.ipts);
    LrintNear(call.duration);
    hide FramePlan, VideoOut, Ready, Completes, Lrint;
  }

  predicate EndsRise(calls: seq<Call>) {
    && (forall i :: 0 <= i < |calls| ==> calls[i].Picture?)
    && (forall i :: 0 < i < |calls| ==> End(calls[i - 1]) <= End(calls[i]))
  }

  /** The time is set already, or is never set. */
  predicate TimeIsSet(cfg: Config, s: Stream) {
    cfg.sync.Cfr? || s.frameNumber > 0
  }

  lemma TimeStaysSet(cfg: Config, s: Stream, call: Call)
    requires Ready(cfg, s) && TimeIsSet(cfg, s)
    ensures TimeIsSet(cfg, VideoOut(cfg, s, call).stream)
  {
    CallEffect(cfg, s, call);
    hide FramePlan, VideoOut;
  }

  /** Over a run of inputs whose ends never decrease, starting no more than 2.1 ticks ahead, the drift
      stays between -2.1 and 0.5 after every call. */
  lemma {:induction false} DriftStaysBounded(cfg: Config, s: Stream, calls: seq<Call>)
    requires Ready(cfg, s) && PlainCfr(cfg) && TimeIsSet(cfg, s) && AllComplete(cfg, s, calls)
    requires calls != [] && EndsRise(calls) && Drift(End(calls[0]), s) >= -2.1
    ensures -2.1 <= Drift(End(calls[|calls| - 1]), Run(cfg, s, calls)) <= 0.5
    decreases |calls|
  {
    var t := VideoOut(cfg, s, calls[0]).stream;
    hide VideoOut, Ready, Completes;
    DriftAfterCall(cfg, s, calls[0]);
    TimeStaysSet(cfg, s, calls[0]);
    CallEffect(cfg, s, calls[0]);
    if |calls| > 1 {
      assert calls[1..][0] == calls[1] && End(calls[0]) <= End(calls[1]);
      DriftStaysBounded(cfg, t, calls[1..]);
    } else {
      assert Run(cfg, t, calls[1..]) == t;
    }
  }

  // ------------------------------------------------------------------ variable rate

  /** Variable rate, no cap and no recording limit. */
  predicate PlainVfr(cfg: Config) {
    cfg.sync.Vfr? && cfg.maxFrames.None? && cfg.recordingLimit.None?
  }

  function Later(x: real, y: real): real {
    if x < y then y else x
  }

  /** At variable rate a picture that ends well before the next tick is not sent; one that ends well behind
      it is sent at its own time, or at the tick if that is later; any other at the tick. */
  lemma VfrFollowsInput(cfg: Config, s: Stream, call: Call)
    requires Ready(cfg, s) && PlainVfr(cfg) && call.Picture?
    ensures var t, behind := VideoOut(cfg, s, call).stream, Drift(End(call), s);
            && (behind <= -0.6 <==> t.sent == s.sent)
            && (behind > -0.6 ==> t.sent == s.sent + [t.syncOpts - 1])
            && (behind > 0.6 ==>
                  -0.5 <= (t.syncOpts - 1) as real - Later(call.ipts, s.syncOpts as real) <= 0.5)
            && (-0.6 < behind <= 0.6 ==> t.syncOpts - 1 == s.syncOpts)
            && (behind <= -0.6 ==> t.syncOpts == s.syncOpts)
  {
    var p := FramePlan(cfg, s, call);
    VfrPlan(cfg, s, call);
    EndsIff(cfg, s, call);
    CallEffect(cfg, s, call);
    hide VideoOut, FramePlan, PlainVfr;
    SameOrMore(s.sent, VideoOut(cfg, s, call).stream.sent, p.nb);
  }

  lemma SameOrMore(sent: seq<int>, more: seq<int>, n: int)
    requires sent <= more && |more| == |sent| + n
    ensures n == 0 ==> more == sent
    ensures n == 1 ==> more == sent + [more[|sent|]]
  {
  }

  /** What the rule for variable rate plans, and that nothing keeps it from being done. */
  lemma VfrPlan(cfg: Config, s: Stream, call: Call)
    requires Ready(cfg, s) && PlainVfr(cfg) && call.Picture?
    ensures Completes(cfg, s, call)
    ensures var p, behind := FramePlan(cfg, s, call), Drift(End(call), s);
            && p.nb == (if behind <= -0.6 then 0 else 1)
            && (behind <= 0.6 ==> p.syncOpts == s.syncOpts)
            && (behind > 0.6 ==> -0.5 <= p.syncOpts as real - Later(call.ipts, s.syncOpts as real) <= 0.5)
  {
    LrintNear(call.ipts);
    LrintWhole(s.syncOpts as real, s.syncOpts);
    hide Lrint;
  }

  /** So the output stays with the input: ahead by less than 1.6 ticks, behind by no more than half a tick
      less than a duration. */
  lemma VfrAfterCall(cfg: Config, s: Stream, call: Call)
    requires Ready(cfg, s) && PlainVfr(cfg) && call.Picture? && call.duration >= 0.0
    ensures var d := Drift(End(call), VideoOut(cfg, s, call).stream);
            && (Drift(End(call), s) >= -1.6 ==> d >= -1.6)
            && d <= Later(call.duration - 0.5, -0.4)
  {
    VfrFollowsInput(cfg, s, call);
    hide VideoOut;
  }

  /** And so over any run of inputs whose ends never decrease. */
  lemma {:induction false} VfrStaysBounded(cfg: Config, s: Stream, calls: seq<Call>)
    requires Ready(cfg, s) && PlainVfr(cfg) && calls != [] && EndsRise(calls)
    requires (forall i :: 0 <= i < |calls| ==> calls[i].duration >= 0.0) && Drift(End(calls[0]), s) >= -1.6
    ensures var last := calls[|calls| - 1];
            -1.6 <= Drift(End(last), Run(cfg, s, calls)) <= Later(last.duration - 0.5, -0.4)
    decreases |calls|
  {
    VfrAfterCall(cfg, s, calls[0]);
    CallEffect(cfg, s, calls[0]);
    var t := VideoOut(cfg, s, calls[0]).stream;
    hide VideoOut, Ready;
    if |calls| == 1 {
      assert Run(cfg, s, calls) == Run(cfg, t, calls[1..]) == t;
    } else {
      assert calls[1..][|calls| - 2] == calls[|calls| - 1];
      VfrStaysBounded(cfg, t, calls[1..]);
    }
  }
}
