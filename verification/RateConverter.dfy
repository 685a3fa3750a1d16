/** The frame-rate converter in front of the video encoder: how many times a frame is sent, at which
    timestamps, and how duplicates and drops are counted. */
module RateConverter {

  /** Rounds to the nearest integer, ties to even. */
  function Lrint(x: real): int {
    var f := x.Floor;
    var d := x - f as real;
    if d < 0.5 || (d == 0.5 && f % 2 == 0) then f else f + 1
  }

  lemma LrintNear(x: real)
    ensures -0.5 <= x - Lrint(x) as real <= 0.5
  {
  }

  /** The resolved synchronisation method. */
  datatype Sync = Passthrough | Cfr | Vfr | Vscfr | DropTimes

  /** The method asked for, or left to the output format. */
  datatype Wanted = Auto | Explicit(sync: Sync)

  /** What the choice depends on: the output format, and the input, if there is one. */
  datatype Output = Output(avi: bool, variableFps: bool, noTimestamps: bool)
  datatype Input = NoInput | Input(streams: nat, tsOffset: int)

  function Resolve(wanted: Wanted, output: Output, input: Input, copyTs: bool): Sync {
    match wanted
    case Explicit(sync) => sync
    case Auto =>
      if output.avi then Vfr
      else if output.variableFps then (if output.noTimestamps then Passthrough else Vfr)
      else if input.Input? && input.streams == 1 && input.tsOffset == 0 then Vscfr
      else if copyTs then Vscfr
      else Cfr
  }

  datatype Option<T> = None | Some(value: T)

  /** What is known of a frame's duration, in encoder ticks: from the filters' rate, from a forced rate,
      and from the packet where no filters change it. */
  datatype Timing = Timing(filterTicks: Option<real>, forcedTicks: Option<real>, packetTicks: Option<real>)

  function Duration(t: Timing): real {
    var filtered := if t.filterTicks.Some? then t.filterTicks.value else 0.0;
    var forced := if t.forcedTicks.Some? && t.forcedTicks.value < filtered then t.forcedTicks.value else filtered;
    if t.packetTicks.Some? && Lrint(t.packetTicks.value) > 0 then Lrint(t.packetTicks.value) as real else forced
  }

  /** What a call is given: where the mode comes from, and a frame with its time and what is known of its
      duration, or no frame at the end. */
  datatype Setting = Setting(wanted: Wanted, output: Output, input: Input, copyTs: bool)
  datatype Next = NextFrame(ipts: real, timing: Timing) | NoFrame

  /** Options of a stream. The recording limit is the first timestamp past the recording time. */
  datatype Config = Config(
    sync: Sync, dropThreshold: real, maxFrames: Option<int>, dupLimit: real, recordingLimit: Option<int>)

  /** A frame with its time and duration in encoder ticks, or the final flush. */
  datatype Call = Picture(ipts: real, duration: real) | Flush

  function CallOf(next: Next): Call {
    match next
    case NextFrame(ipts, timing) => Picture(ipts, Duration(timing))
    case NoFrame => Flush
  }

  /** The options with the mode this call resolves to; without a frame no mode is needed. */
  function Settled(cfg: Config, setting: Setting, next: Next): Config {
    if next.NoFrame? then cfg
    else cfg.(sync := Resolve(setting.wanted, setting.output, setting.input, setting.copyTs))
  }

  /** The stream's fields, and the global counters. The last four are bookkeeping of the model: how many
      pictures came in, the timestamps of the frames given to the encoder, the number of the picture held
      for repeats, and which picture each frame given to the encoder was. */
  datatype Stream = Stream(
    syncOpts: int, frameNumber: int, lastNb0: seq<int>, lastDropped: bool, hasLast: bool,
    dup: int, drop: int, inputs: nat, sent: seq<int>, held: int, shown: seq<int>)

  predicate Ready(cfg: Config, s: Stream) {
    && |s.lastNb0| == 3 && (forall i :: 0 <= i < 3 ==> s.lastNb0[i] >= 0)
    && s.frameNumber == |s.sent| == |s.shown|
    && (cfg.maxFrames.Some? ==> s.frameNumber <= cfg.maxFrames.value)
  }

  datatype Outcome = Done | TooManyDups | NoPicture | RecordingOver

  datatype Result = Result(stream: Stream, outcome: Outcome)

  /** The median of three, as the flush uses it. */
  function MidPred(a: int, b: int, c: int): (r: int)
    ensures r == a || r == b || r == c
    ensures (a <= r <= b || b <= r <= a) || (a <= r <= c || c <= r <= a) || (b <= r <= c || c <= r <= b)
  {
    if a > b then
      if c > b then if c > a then a else c else b
    else
      if b > c then if c > a then c else a else b
  }

  /** How many frames to send, how many of them repeat the last one, and the next timestamp. */
  datatype Plan = Plan(nb: int, nb0: int, syncOpts: int)

  /** The rule for constant rates, from the drift with and without the frame's duration. */
  function CfrPlan(cfg: Config, s: Stream, delta: real, delta0: real, syncOpts: int): Plan {
    if cfg.dropThreshold != 0.0 && delta < cfg.dropThreshold && s.frameNumber != 0 then Plan(0, 0, syncOpts)
    else if delta < -1.1 then Plan(0, 0, syncOpts)
    else if delta > 1.1 then Plan(Lrint(delta), if delta0 > 1.1 then Lrint(delta0 - 0.6) else 0, syncOpts)
    else Plan(1, 0, syncOpts)
  }

  /** A frame that began in the past but ends in the future is clipped to begin now. */
  predicate Clipped(cfg: Config, delta0: real, delta: real) {
    delta0 < 0.0 && delta > 0.0 && !cfg.sync.Passthrough? && !cfg.sync.DropTimes?
  }

  function PicturePlan(cfg: Config, s: Stream, ipts: real, duration: real): Plan {
    var drift := ipts - s.syncOpts as real;
    var delta := drift + duration;
    var clip := Clipped(cfg, drift, delta);
    var ipts' := if clip then s.syncOpts as real else ipts;
    var delta0 := if clip then 0.0 else drift;
    match cfg.sync
    case Vscfr =>
      if s.frameNumber == 0 && delta0 >= 0.5
      then CfrPlan(cfg, s, duration, 0.0, Lrint(ipts'))
      else CfrPlan(cfg, s, delta, delta0, s.syncOpts)
    case Cfr => CfrPlan(cfg, s, delta, delta0, s.syncOpts)
    case Vfr =>
      if delta <= -0.6 then Plan(0, 0, s.syncOpts)
      else Plan(1, 0, if delta > 0.6 then Lrint(ipts') else s.syncOpts)
    case DropTimes => Plan(1, 0, Lrint(ipts'))
    case Passthrough => Plan(1, 0, Lrint(ipts'))
  }

  function Min(a: int, b: int): int {
    if a < b then a else b
  }

  /** The plan, capped by the frames still allowed. */
  function FramePlan(cfg: Config, s: Stream, call: Call): Plan
    requires |s.lastNb0| == 3
  {
    var p := match call
             case Picture(ipts, duration) => PicturePlan(cfg, s, ipts, duration)
             case Flush =>
               var nb := MidPred(s.lastNb0[0], s.lastNb0[1], s.lastNb0[2]);
               Plan(nb, nb, s.syncOpts);
    var nb := if cfg.maxFrames.Some? then Min(p.nb, cfg.maxFrames.value - s.frameNumber) else p.nb;
    Plan(nb, Min(p.nb0, nb), p.syncOpts)
  }

  function Bit(b: bool): int {
    if b then 1 else 0
  }

  /** Frames that are not duplicates: the repeat of a frame not sent before, and the new frame. */
  function Fresh(s: Stream, p: Plan): int {
    Bit(p.nb0 != 0 && s.lastDropped) + Bit(p.nb > p.nb0)
  }

  /** One frame sent: the held picture again, or the newest. */
  function SendOne(s: Stream, again: bool): Stream {
    s.(sent := s.sent + [s.syncOpts], shown := s.shown + [if again then s.held else s.inputs - 1],
       syncOpts := s.syncOpts + 1, frameNumber := s.frameNumber + 1)
  }

  /** Sends frames i..nb, each one tick later; stops when there is no picture to send or the recording
      time is reached. */
  function SendFrames(cfg: Config, s: Stream, i: int, nb: int, nb0: int, picture: bool): Result
    decreases nb - i
  {
    if i >= nb then Result(s, Done)
    else if !(i < nb0 && s.hasLast) && !picture then Result(s, NoPicture)
    else if cfg.recordingLimit.Some? && s.syncOpts >= cfg.recordingLimit.value then Result(s, RecordingOver)
    else
      SendFrames(cfg, SendOne(s, i < nb0 && s.hasLast), i + 1, nb, nb0, picture)
  }

  /** The bookkeeping before any frame is sent. */
  function Account(s: Stream, p: Plan, picture: bool): Stream
    requires |s.lastNb0| == 3
  {
    var s1 := s.(
      syncOpts := p.syncOpts,
      lastNb0 := [p.nb0, s.lastNb0[0], s.lastNb0[1]],
      inputs := s.inputs + if picture then 1 else 0,
      drop := s.drop + Bit(p.nb0 == 0 && s.lastDropped));
    s1
  }

  predicate TooMany(cfg: Config, s: Stream, p: Plan) {
    p.nb > Fresh(s, p) && p.nb as real > cfg.dupLimit
  }

  /** Counts the duplicates of an accepted plan and notes whether the new picture is held back. */
  function Accept(s: Stream, p: Plan, picture: bool): Stream {
    s.(dup := s.dup + (if p.nb > Fresh(s, p) then p.nb - Fresh(s, p) else 0), lastDropped := p.nb == p.nb0 && picture)
  }

  function VideoOut(cfg: Config, s: Stream, call: Call): Result
    requires |s.lastNb0| == 3
  {
    var p := FramePlan(cfg, s, call);
    var s1 := Account(s, p, call.Picture?);
    if TooMany(cfg, s1, p) then Result(s1.(drop := s1.drop + 1), TooManyDups)
    else
      var r := SendFrames(cfg, Accept(s1, p, call.Picture?), 0, p.nb, p.nb0, call.Picture?);
      if r.outcome.Done? then Result(r.stream.(hasLast := call.Picture?, held := s1.inputs - 1), Done) else r
  }

  // ------------------------------------------------------------------ what every call keeps

  /** The plan never asks for more repeats than frames, nor for negative numbers. */
  lemma PlanSane(cfg: Config, s: Stream, call: Call)
    requires Ready(cfg, s)
    ensures 0 <= FramePlan(cfg, s, call).nb0 <= FramePlan(cfg, s, call).nb
    ensures call.Flush? ==> FramePlan(cfg, s, call).nb0 == FramePlan(cfg, s, call).nb
    ensures cfg.maxFrames.Some? ==> s.frameNumber + FramePlan(cfg, s, call).nb <= cfg.maxFrames.value
  {
  }

  lemma {:induction false} SendKeeps(cfg: Config, s: Stream, i: int, nb: int, nb0: int, picture: bool)
    requires 0 <= i <= nb
    requires s.frameNumber == |s.sent| == |s.shown|
    ensures var t := SendFrames(cfg, s, i, nb, nb0, picture).stream;
            && t == s.(sent := t.sent, shown := t.shown, syncOpts := t.syncOpts, frameNumber := t.frameNumber)
            && |t.shown| == |t.sent| && s.shown <= t.shown
            && (forall k :: |s.sent| <= k < |t.sent| ==>
                  t.shown[k] == if k - |s.sent| + i < nb0 && s.hasLast then s.held else s.inputs - 1)
            && t.frameNumber == |t.sent| && s.sent <= t.sent
            && t.syncOpts == s.syncOpts + |t.sent| - |s.sent|
            && |t.sent| - |s.sent| <= nb - i
            && !SendFrames(cfg, s, i, nb, nb0, picture).outcome.TooManyDups?
            && (SendFrames(cfg, s, i, nb, nb0, picture).outcome.Done? <==> |t.sent| - |s.sent| == nb - i)
            && forall k :: |s.sent| <= k < |t.sent| ==> t.sent[k] == s.syncOpts + k - |s.sent|
    decreases nb - i
  {
    if i < nb && ((i < nb0 && s.hasLast) || picture)
       && !(cfg.recordingLimit.Some? && s.syncOpts >= cfg.recordingLimit.value) {
      var s' := SendOne(s, i < nb0 && s.hasLast);
      SendKeeps(cfg, s', i + 1, nb, nb0, picture);
      var t := SendFrames(cfg, s', i + 1, nb, nb0, picture).stream;
      assert t.sent[|s.sent|] == s'.sent[|s.sent|] && t.shown[|s.sent|] == s'.shown[|s.sent|];
    }
  }

  /** One call, start to end: what was sent and how the counters moved. */
  lemma CallEffect(cfg: Config, s: Stream, call: Call)
    requires Ready(cfg, s)
    ensures var p, r := FramePlan(cfg, s, call), VideoOut(cfg, s, call);
            var t := r.stream;
            && 0 <= p.nb0 <= p.nb
            && Ready(cfg, t) && s.sent <= t.sent
            && t.syncOpts == p.syncOpts + |t.sent| - |s.sent|
            && |t.sent| - |s.sent| <= p.nb && (r.outcome.Done? ==> |t.sent| - |s.sent| == p.nb)
            && (forall k :: |s.sent| <= k < |t.sent| ==> t.sent[k] == p.syncOpts + k - |s.sent|)
            && s.shown <= t.shown
            && (forall k :: |s.sent| <= k < |t.sent| ==>
                  t.shown[k] == if k - |s.sent| < p.nb0 && s.hasLast then s.held else t.inputs - 1)
  {
    PlanSane(cfg, s, call);
    var p := FramePlan(cfg, s, call);
    var s1 := Account(s, p, call.Picture?);
    if !TooMany(cfg, s1, p) {
      SendKeeps(cfg, Accept(s1, p, call.Picture?), 0, p.nb, p.nb0, call.Picture?);
    }
    hide FramePlan, SendFrames, Fresh;
  }

  // ------------------------------------------------------------------ the converter as it runs

  /** The output stream's mutable fields and the global counters it moves. */
  class OutputStream {
    var cfg: Config
    var syncOpts: int
    var frameNumber: int
    var lastNb0: array<int>
    var lastDropped: bool
    var hasLast: bool
    var nbFramesDup: int
    var nbFramesDrop: int
    ghost var inputs: nat
    ghost var sent: seq<int>
    ghost var held: int
    ghost var shown: seq<int>

    ghost function Value(): (s: Stream)
      reads this, lastNb0
    {
      Stream(syncOpts, frameNumber, lastNb0[..], lastDropped, hasLast, nbFramesDup, nbFramesDrop, inputs, sent,
             held, shown)
    }

    ghost predicate Valid()
      reads this, lastNb0
    {
      lastNb0.Length == 3
    }

    constructor (cfg: Config, syncOpts: int)
      ensures Valid() && fresh(lastNb0) && this.cfg == cfg
      ensures Value() == Stream(syncOpts, 0, [0, 0, 0], false, false, 0, 0, 0, [], 0, [])
    {
      this.cfg := cfg;
      this.syncOpts := syncOpts;
      frameNumber, nbFramesDup, nbFramesDrop := 0, 0, 0;
      lastNb0 := new int[3](_ => 0);
      lastDropped, hasLast := false, false;
      inputs, sent, held, shown := 0, [], 0, [];
    }

    /** The rule for constant rates. */
    method CfrFrames(delta: real, delta0: real) returns (nb: int, nb0: int)
      requires Valid()
      ensures CfrPlan(cfg, Value(), delta, delta0, syncOpts) == Plan(nb, nb0, syncOpts)
    {
      nb, nb0 := 1, 0;
      if cfg.dropThreshold != 0.0 && delta < cfg.dropThreshold && frameNumber != 0 {
        nb := 0;
      } else if delta < -1.1 {
        nb := 0;
      } else if delta > 1.1 {
        nb := Lrint(delta);
        if delta0 > 1.1 {
          nb0 := Lrint(delta0 - 0.6);
        }
      }
    }

    /** Decides how often to send a picture; may move the next timestamp. */
    method CountFrames(ipts: real, duration: real) returns (nb: int, nb0: int)
      requires Valid()
      modifies `syncOpts
      ensures PicturePlan(cfg, old(Value()), ipts, duration) == Plan(nb, nb0, syncOpts)
    {
      var syncIpts := ipts;
      var delta0 := ipts - syncOpts as real;
      var delta := delta0 + duration;
      nb, nb0 := 1, 0;
      if delta0 < 0.0 && delta > 0.0 && cfg.sync != Passthrough && cfg.sync != DropTimes {
        syncIpts := syncOpts as real;
        delta0 := 0.0;
      }
      match cfg.sync {
        case Vscfr =>
          if frameNumber == 0 && delta0 >= 0.5 {
            delta := duration;
            delta0 := 0.0;
            syncOpts := Lrint(syncIpts);
          }
          nb, nb0 := CfrFrames(delta, delta0);
        case Cfr =>
          nb, nb0 := CfrFrames(delta, delta0);
        case Vfr =>
          if delta <= -0.6 {
            nb := 0;
          } else if delta > 0.6 {
            syncOpts := Lrint(syncIpts);
          }
        case DropTimes => syncOpts := Lrint(syncIpts);
        case Passthrough => syncOpts := Lrint(syncIpts);
      }
    }

    /** Sends the frames one tick apart. */
    method Send(nb: int, nb0: int, picture: bool) returns (outcome: Outcome)
      requires Valid() && 0 <= nb
      modifies `syncOpts, `frameNumber, `sent, `shown
      ensures var r := SendFrames(cfg, old(Value()), 0, nb, nb0, picture);
              Value() == r.stream && outcome == r.outcome
    {
      var i := 0;
      ghost var all := SendFrames(cfg, Value(), 0, nb, nb0, picture);
      while i < nb
        invariant 0 <= i <= nb
        invariant SendFrames(cfg, Value(), i, nb, nb0, picture) == all
      {
        if !(i < nb0 && hasLast) && !picture {
          return NoPicture;
        }
        if cfg.recordingLimit.Some? && syncOpts >= cfg.recordingLimit.value {
          return RecordingOver;
        }
        sent := sent + [syncOpts];
        shown := shown + [if i < nb0 && hasLast then held else inputs - 1];
        syncOpts := syncOpts + 1;
        frameNumber := frameNumber + 1;
        i := i + 1;
      }
      outcome := Done;
    }

    /** Notes the number of repeats, and a held frame that is given up. */
    method NoteRepeats(nb0: int, picture: bool)
      requires Valid()
      modifies lastNb0, `nbFramesDrop, `inputs
      ensures Value() == Account(old(Value()), Plan(0, nb0, old(syncOpts)), picture)
    {
      lastNb0[2] := lastNb0[1];
      lastNb0[1] := lastNb0[0];
      lastNb0[0] := nb0;
      if nb0 == 0 && lastDropped {
        nbFramesDrop := nbFramesDrop + 1;
      }
      inputs := inputs + if picture then 1 else 0;
      assert lastNb0[..] == [nb0, old(lastNb0[0]), old(lastNb0[1])];
    }

    /** How many frames to send for this call, within what is still allowed. */
    method PlanFrames(call: Call) returns (nb: int, nb0: int)
      requires Valid()
      modifies `syncOpts
      ensures FramePlan(cfg, old(Value()), call) == Plan(nb, nb0, syncOpts)
    {
      match call {
        case Flush =>
          nb := MidPred(lastNb0[0], lastNb0[1], lastNb0[2]);
          nb0 := nb;
        case Picture(ipts, duration) =>
          nb, nb0 := CountFrames(ipts, duration);
      }
      if cfg.maxFrames.Some? {
        nb := Min(nb, cfg.maxFrames.value - frameNumber);
      }
      nb0 := Min(nb0, nb);
    }

    /** Counts duplicates, or refuses when there are too many. */
    method CountDuplicates(nb: int, nb0: int, picture: bool) returns (tooMany: bool)
      requires Valid()
      modifies `nbFramesDup, `nbFramesDrop, `lastDropped
      ensures tooMany <==> TooMany(cfg, old(Value()), Plan(nb, nb0, old(syncOpts)))
      ensures Value() == if tooMany then old(Value()).(drop := old(nbFramesDrop) + 1)
                         else Accept(old(Value()), Plan(nb, nb0, old(syncOpts)), picture)
    {
      var once := Bit(nb0 != 0 && lastDropped) + Bit(nb > nb0);
      if nb > once {
        if nb as real > cfg.dupLimit {
          nbFramesDrop := nbFramesDrop + 1;
          return true;
        }
        nbFramesDup := nbFramesDup + nb - once;
      }
      lastDropped := nb == nb0 && picture;
      tooMany := false;
    }

    /** One call with its mode and duration settled. */
    method Convert(call: Call) returns (outcome: Outcome)
      requires Valid() && Ready(cfg, Value())
      modifies this, lastNb0
      ensures Valid() && lastNb0 == old(lastNb0) && cfg == old(cfg)
      ensures Result(Value(), outcome) == VideoOut(cfg, old(Value()), call)
    {
      hide FramePlan, SendFrames, TooMany, Accept, Account;
      PlanSane(cfg, Value(), call);
      var nb, nb0 := PlanFrames(call);
      var picture := call.Picture?;
      NoteRepeats(nb0, picture);
      AccountPlan(old(Value()), Plan(nb, nb0, syncOpts), picture);
      var tooMany := CountDuplicates(nb, nb0, picture);
      if tooMany {
        return TooManyDups;
      }
      outcome := Send(nb, nb0, picture);
      if outcome.Done? {
        hasLast := picture;
        held := inputs - 1;
      }
    }

    /** How long a frame lasts: by the filters' rate, by no more than a forced rate, or by its packet. */
    method FrameDuration(t: Timing) returns (duration: real)
      ensures duration == Duration(t)
    {
      duration := 0.0;
      if t.filterTicks.Some? {
        duration := t.filterTicks.value;
      }
      if t.forcedTicks.Some? && t.forcedTicks.value < duration {
        duration := t.forcedTicks.value;
      }
      if t.packetTicks.Some? && Lrint(t.packetTicks.value) > 0 {
        duration := Lrint(t.packetTicks.value) as real;
      }
    }

    /** The synchronisation mode, where it is left open. */
    method ResolveSync(setting: Setting) returns (sync: Sync)
      ensures sync == Resolve(setting.wanted, setting.output, setting.input, setting.copyTs)
    {
      if setting.wanted.Explicit? {
        return setting.wanted.sync;
      }
      if setting.output.avi {
        sync := Vfr;
      } else {
        sync := Cfr;
        if setting.output.variableFps {
          sync := if setting.output.noTimestamps then Passthrough else Vfr;
        }
        if setting.input.Input? && sync.Cfr? && setting.input.streams == 1 && setting.input.tsOffset == 0 {
          sync := Vscfr;
        }
        if sync.Cfr? && setting.copyTs {
          sync := Vscfr;
        }
      }
    }

    /** The whole call. */
    method DoVideoOut(next: Next, setting: Setting) returns (outcome: Outcome)
      requires Valid() && Ready(cfg, Value())
      modifies this, lastNb0
      ensures Valid() && lastNb0 == old(lastNb0) && cfg == Settled(old(cfg), setting, next)
      ensures Result(Value(), outcome) == VideoOut(cfg, old(Value()), CallOf(next))
    {
      hide VideoOut, Resolve, Duration;
      match next {
        case NoFrame => outcome := Convert(Flush);
        case NextFrame(ipts, timing) =>
          var duration := FrameDuration(timing);
          var sync := ResolveSync(setting);
          cfg := cfg.(sync := sync);
          outcome := Convert(Picture(ipts, duration));
      }
    }
  }

  lemma AccountPlan(s: Stream, p: Plan, picture: bool)
    requires |s.lastNb0| == 3
    ensures Account(s, p, picture) == Account(s.(syncOpts := p.syncOpts), Plan(0, p.nb0, p.syncOpts), picture)
  {
  }
}
