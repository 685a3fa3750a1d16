/** The chain of bitstream filters behind an encoder, walked with a single moving index. */
module FilterChain {

  /** What goes into a filter: a packet, or the end of the stream. */
  datatype Input<P> = Packet(packet: P) | Eof

  /** A filter: how it reacts to an input, its state, the packets it has yet to hand out, and whether
      it has been told the end. Every input yields finitely many packets. */
  datatype Filter<!S, !P> = Filter(step: (S, Input<P>) -> (S, seq<P>), state: S, pending: seq<P>, eof: bool)

  /** A filter accepts an input once it has handed out everything, and none after the end. */
  predicate Idle<S, P>(f: Filter<S, P>) {
    |f.pending| == 0 && !f.eof
  }

  function Send<S, P>(f: Filter<S, P>, x: Input<P>): Filter<S, P>
    requires Idle(f)
  {
    var (state, out) := f.step(f.state, x);
    f.(state := state, pending := out, eof := x.Eof?)
  }

  datatype Received<P> = Got(packet: P) | Again | End

  function Receive<S, P>(f: Filter<S, P>): Received<P> {
    if |f.pending| > 0 then Got(f.pending[0]) else if f.eof then End else Again
  }

  function Pop<S, P>(f: Filter<S, P>): Filter<S, P> {
    if |f.pending| > 0 then f.(pending := f.pending[1..]) else f
  }

  function Emptied<S, P>(f: Filter<S, P>): Filter<S, P> {
    f.(pending := [])
  }

  predicate AllIdle<S, P>(fs: seq<Filter<S, P>>) {
    forall i :: 0 <= i < |fs| ==> Idle(fs[i])
  }

  predicate AllEnded<S, P>(fs: seq<Filter<S, P>>) {
    forall i :: 0 <= i < |fs| ==> |fs[i].pending| == 0 && fs[i].eof
  }

  // ------------------------------------------------------------------ composition

  /** The filters afterwards, what came out of the last one, and how many receptions that took. */
  datatype Fed<!S, !P> = Fed(filters: seq<Filter<S, P>>, out: seq<P>, steps: nat)

  /** One input through the whole chain: everything the first filter makes of it goes through the
      rest, packet by packet, and an end goes on as an end. */
  function Feed<S, P>(fs: seq<Filter<S, P>>, x: Input<P>): (r: Fed<S, P>)
    requires AllIdle(fs)
    ensures |r.filters| == |fs|
    ensures if x.Eof? then AllEnded(r.filters) else AllIdle(r.filters)
    decreases |fs|, 0
  {
    if |fs| == 0 then Fed(fs, if x.Packet? then [x.packet] else [], 0)
    else
      var f := Send(fs[0], x);
      var r1 := FeedAll(fs[1..], f.pending);
      if x.Packet? then Fed([Emptied(f)] + r1.filters, r1.out, |f.pending| + 1 + r1.steps)
      else
        var r2 := Feed(r1.filters, Eof);
        Fed([Emptied(f)] + r2.filters, r1.out + r2.out, |f.pending| + 1 + r1.steps + r2.steps)
  }

  /** Packets one after another through the whole chain. */
  function FeedAll<S, P>(fs: seq<Filter<S, P>>, ps: seq<P>): (r: Fed<S, P>)
    requires AllIdle(fs)
    ensures |r.filters| == |fs| && AllIdle(r.filters)
    decreases |fs|, |ps| + 1
  {
    if |ps| == 0 then Fed(fs, [], 0)
    else
      var r1 := Feed(fs, Packet(ps[0]));
      var r2 := FeedAll(r1.filters, ps[1..]);
      Fed(r2.filters, r1.out + r2.out, r1.steps + r2.steps)
  }

  // ------------------------------------------------------------------ filters one after another

  /** A filter alone, over a list of packets: the filter afterwards and all it made. */
  function RunFilter<S, P>(f: Filter<S, P>, ps: seq<P>): (r: (Filter<S, P>, seq<P>))
    requires Idle(f)
    ensures Idle(r.0)
    decreases |ps|
  {
    if |ps| == 0 then (f, [])
    else
      var g := Send(f, Packet(ps[0]));
      var (h, out) := RunFilter(Emptied(g), ps[1..]);
      (h, g.pending + out)
  }

  /** All that a step function makes of a list of packets and then the end, from a state on. */
  function Made<S, P>(step: (S, Input<P>) -> (S, seq<P>), state: S, ps: seq<P>): seq<P>
    decreases |ps|
  {
    if |ps| == 0 then step(state, Eof).1
    else
      var (next, out) := step(state, Packet(ps[0]));
      out + Made(step, next, ps[1..])
  }

  /** The whole stream through the first step function, then all of that through the second, and so on. */
  function Staged<S, P>(fs: seq<Filter<S, P>>, ps: seq<P>): seq<P>
    decreases |fs|
  {
    if |fs| == 0 then ps else Staged(fs[1..], Made(fs[0].step, fs[0].state, ps))
  }

  /** A filter alone hands out all that its step function makes. */
  lemma {:induction false} RunIsMade<S, P>(f: Filter<S, P>, ps: seq<P>)
    requires Idle(f)
    ensures RunFilter(f, ps).1 + Send(RunFilter(f, ps).0, Eof).pending == Made(f.step, f.state, ps)
    decreases |ps|
  {
    if |ps| == 0 {
      assert [] + Send(f, Eof).pending == Send(f, Eof).pending;
    } else {
      var g := Send(f, Packet(ps[0]));
      RunIsMade(Emptied(g), ps[1..]);
      var (h, out) := RunFilter(Emptied(g), ps[1..]);
      assert g.pending + (out + Send(h, Eof).pending) == (g.pending + out) + Send(h, Eof).pending;
    }
  }

  lemma {:induction false} FeedAllAppend<S, P>(fs: seq<Filter<S, P>>, ps: seq<P>, qs: seq<P>)
    requires AllIdle(fs)
    ensures var r1 := FeedAll(fs, ps); var r2 := FeedAll(r1.filters, qs);
            FeedAll(fs, ps + qs).filters == r2.filters && FeedAll(fs, ps + qs).out == r1.out + r2.out
    decreases |ps|
  {
    if |ps| == 0 {
      assert ps + qs == qs;
    } else {
      var r := Feed(fs, Packet(ps[0]));
      FeedAllAppend(r.filters, ps[1..], qs);
      assert (ps + qs)[1..] == ps[1..] + qs && (ps + qs)[0] == ps[0];
      hide Feed, AllIdle;
    }
  }

  /** Packets through the chain are packets through the first filter, then through the rest. */
  lemma {:induction false} FirstThenRest<S, P>(fs: seq<Filter<S, P>>, ps: seq<P>)
    requires AllIdle(fs) && |fs| > 0
    ensures var (f, out) := RunFilter(fs[0], ps);
            var r := FeedAll(fs[1..], out);
            FeedAll(fs, ps).filters == [f] + r.filters && FeedAll(fs, ps).out == r.out
    decreases |ps|
  {
    if |ps| == 0 {
      assert FeedAll(fs[1..], []).filters == fs[1..];
    } else {
      var g := Send(fs[0], Packet(ps[0]));
      var r1 := FeedAll(fs[1..], g.pending);
      var fs1 := [Emptied(g)] + r1.filters;
      assert Feed(fs, Packet(ps[0])).filters == fs1;
      assert fs1[1..] == r1.filters;
      FirstThenRest(fs1, ps[1..]);
      FeedAllAppend(fs[1..], g.pending, RunFilter(Emptied(g), ps[1..]).1);
    }
  }

  /** A whole stream with its end: what the chain writes is what the filters' step functions make of it
      one after another, in the same order. */
  lemma {:induction false} ChainIsStaged<S, P>(fs: seq<Filter<S, P>>, ps: seq<P>)
    requires AllIdle(fs)
    ensures var r := FeedAll(fs, ps);
            r.out + Feed(r.filters, Eof).out == Staged(fs, ps)
    decreases |fs|
  {
    hide FeedAll, Feed, RunFilter, Send;
    if |fs| == 0 {
      NoFilters(fs, ps);
    } else {
      FirstThenRest(fs, ps);
      RunIsMade(fs[0], ps);
      var (f, out) := RunFilter(fs[0], ps);
      var rest, last := FeedAll(fs[1..], out), Send(f, Eof).pending;
      EndsFirst(f, rest.filters);
      FeedAllAppend(fs[1..], out, last);
      ChainIsStaged(fs[1..], out + last);
    }
  }

  /** The end through a chain: what the first filter still makes goes through the rest, and then the end. */
  lemma EndsFirst<S, P>(f: Filter<S, P>, rest: seq<Filter<S, P>>)
    requires Idle(f) && AllIdle(rest) && AllIdle([f] + rest)
    ensures var r := FeedAll(rest, Send(f, Eof).pending);
            Feed([f] + rest, Eof).out == r.out + Feed(r.filters, Eof).out
  {
    assert ([f] + rest)[1..] == rest;
  }

  lemma {:induction false} NoFilters<S, P>(fs: seq<Filter<S, P>>, ps: seq<P>)
    requires |fs| == 0
    ensures FeedAll(fs, ps) == Fed(fs, ps, 0) && Feed(fs, Eof).out == []
    decreases |ps|
  {
    if |ps| > 0 {
      NoFilters(fs, ps[1..]);
      assert [ps[0]] + ps[1..] == ps;
    }
  }

  // ------------------------------------------------------------------ the walk

  /** What is left to do when the walk stands behind filter idx-1: empty it into the rest, then pass
      its end on, or go back up. */
  function Walk<S, P>(fs: seq<Filter<S, P>>, idx: nat): (r: Fed<S, P>)
    requires idx <= |fs| && AllIdle(fs[idx..])
    ensures |r.filters| == |fs|
    decreases idx
  {
    if idx == 0 then Fed(fs, [], 0)
    else
      var f := fs[idx - 1];
      var r1 := FeedAll(fs[idx..], f.pending);
      if f.eof then
        var r2 := Feed(r1.filters, Eof);
        Fed(fs[..idx - 1] + [Emptied(f)] + r2.filters, r1.out + r2.out, |f.pending| + 1 + r1.steps + r2.steps)
      else
        var fs1 := fs[..idx - 1] + [Emptied(f)] + r1.filters;
        assert fs1[idx - 1..] == [Emptied(f)] + r1.filters;
        var r2 := Walk(fs1, idx - 1);
        Fed(r2.filters, r1.out + r2.out, |f.pending| + 1 + r1.steps + r2.steps)
  }

  lemma WalkAgain<S, P>(fs: seq<Filter<S, P>>, idx: nat)
    requires 0 < idx <= |fs| && AllIdle(fs[idx..]) && Receive(fs[idx - 1]).Again?
    ensures AllIdle(fs[idx - 1..])
    ensures Walk(fs, idx) == Fed(Walk(fs, idx - 1).filters, Walk(fs, idx - 1).out, Walk(fs, idx - 1).steps + 1)
  {
    var f := fs[idx - 1];
    assert Emptied(f) == f;
    assert fs[idx - 1..] == [f] + fs[idx..];
    assert fs[..idx - 1] + [f] + fs[idx..] == fs;
    assert [] + Walk(fs, idx - 1).out == Walk(fs, idx - 1).out;
  }

  /** The filters with one packet taken from filter idx-1. */
  function Taken<S, P>(fs: seq<Filter<S, P>>, idx: nat): (r: seq<Filter<S, P>>)
    requires 0 < idx <= |fs|
    ensures |r| == |fs|
  {
    fs[idx - 1 := Pop(fs[idx - 1])]
  }

  /** Behind the last filter a packet is written. */
  lemma WalkWrites<S, P>(fs: seq<Filter<S, P>>)
    requires |fs| > 0 && |fs[|fs| - 1].pending| > 0
    ensures var r := Walk(Taken(fs, |fs|), |fs|);
            Walk(fs, |fs|) == Fed(r.filters, [fs[|fs| - 1].pending[0]] + r.out, r.steps + 1)
  {
    var n := |fs|;
    var f, g := fs[n - 1], Pop(fs[n - 1]);
    var none := fs[n..];
    assert Taken(fs, n)[n..] == none && Taken(fs, n)[..n - 1] == fs[..n - 1];
    NoFilters(none, f.pending);
    NoFilters(none, g.pending);
    hide FeedAll, Feed;
    assert f.pending == [f.pending[0]] + g.pending && Emptied(g) == Emptied(f);
    var fs1 := fs[..n - 1] + [Emptied(f)] + none;
    assert fs1[n - 1..] == [Emptied(f)] + none;
    var e := if f.eof then Feed(none, Eof) else Walk(fs1, n - 1);
    assert f.pending + e.out == [f.pending[0]] + (g.pending + e.out);
  }

  /** The filters with input x sent to filter idx. */
  function Sent<S, P>(fs: seq<Filter<S, P>>, idx: nat, x: Input<P>): (r: seq<Filter<S, P>>)
    requires idx < |fs| && Idle(fs[idx])
    ensures |r| == |fs|
  {
    fs[idx := Send(fs[idx], x)]
  }

  /** Anywhere else a packet is sent one filter down, and the walk follows it. */
  lemma WalkSends<S, P>(fs: seq<Filter<S, P>>, idx: nat)
    requires 0 < idx < |fs| && AllIdle(fs[idx..]) && |fs[idx - 1].pending| > 0
    ensures Idle(fs[idx]) && AllIdle(Sent(Taken(fs, idx), idx, Packet(fs[idx - 1].pending[0]))[idx + 1..])
    ensures var r := Walk(Sent(Taken(fs, idx), idx, Packet(fs[idx - 1].pending[0])), idx + 1);
            Walk(fs, idx) == Fed(r.filters, r.out, r.steps + 1)
  {
    var f, p := fs[idx - 1], fs[idx - 1].pending[0];
    var tail := fs[idx..];
    assert tail[0] == fs[idx] && tail[1..] == fs[idx + 1..];
    var g := Send(fs[idx], Packet(p));
    var fs1 := Sent(Taken(fs, idx), idx, Packet(p));
    assert fs1[idx] == g && fs1[idx + 1..] == tail[1..] && fs1[..idx] == fs[..idx - 1] + [Pop(f)];
    var r1 := FeedAll(tail[1..], g.pending);
    var mid := fs1[..idx] + [Emptied(g)] + r1.filters;
    assert mid[idx - 1] == Pop(f) && mid[idx..] == [Emptied(g)] + r1.filters && mid[..idx - 1] == fs[..idx - 1];
    assert Feed(tail, Packet(p)) == Fed([Emptied(g)] + r1.filters, r1.out, |g.pending| + 1 + r1.steps);
    SendJoins(fs, mid, idx, p, r1);
  }

  /** The packets still to come, through the rest as the sent packet leaves it. */
  lemma SendJoins<S, P>(fs: seq<Filter<S, P>>, mid: seq<Filter<S, P>>, idx: nat, p: P, r1: Fed<S, P>)
    requires 0 < idx < |fs| == |mid| && AllIdle(fs[idx..]) && |fs[idx - 1].pending| > 0 && p == fs[idx - 1].pending[0]
    requires mid[..idx - 1] == fs[..idx - 1] && mid[idx - 1] == Pop(fs[idx - 1])
    requires mid[idx..] == Feed(fs[idx..], Packet(p)).filters
    requires r1.out == Feed(fs[idx..], Packet(p)).out
    ensures AllIdle(mid[idx..])
    ensures Walk(fs, idx).filters == Walk(mid, idx).filters
    ensures Walk(fs, idx).out == r1.out + Walk(mid, idx).out
    ensures Walk(fs, idx).steps == Walk(mid, idx).steps + 1 + Feed(fs[idx..], Packet(p)).steps
  {
    var f, g := fs[idx - 1], mid[idx - 1];
    var first := Feed(fs[idx..], Packet(p));
    var rest := FeedAll(mid[idx..], g.pending);
    assert FeedAll(fs[idx..], f.pending) == Fed(rest.filters, first.out + rest.out, first.steps + rest.steps);
    assert Emptied(f) == Emptied(g);
    hide FeedAll, Feed;
    if f.eof {
      var e := Feed(rest.filters, Eof);
      assert (first.out + rest.out) + e.out == first.out + (rest.out + e.out);
    } else {
      var fs1 := fs[..idx - 1] + [Emptied(f)] + rest.filters;
      assert fs1[idx - 1..] == [Emptied(f)] + rest.filters;
      var e := Walk(fs1, idx - 1);
      assert (first.out + rest.out) + e.out == first.out + (rest.out + e.out);
    }
  }

  /** An end is sent one filter down as well. */
  lemma WalkPassesEnd<S, P>(fs: seq<Filter<S, P>>, idx: nat)
    requires 0 < idx < |fs| && AllIdle(fs[idx..]) && Receive(fs[idx - 1]).End?
    ensures Idle(fs[idx]) && AllIdle(Sent(fs, idx, Eof)[idx + 1..])
    ensures var r := Walk(Sent(fs, idx, Eof), idx + 1); Walk(fs, idx) == Fed(r.filters, r.out, r.steps + 1)
  {
    var tail := fs[idx..];
    assert tail[0] == fs[idx] && tail[1..] == fs[idx + 1..];
    var g := Send(fs[idx], Eof);
    var fs1 := Sent(fs, idx, Eof);
    assert fs1[idx] == g && fs1[idx + 1..] == tail[1..] && fs1[..idx] == fs[..idx - 1] + [fs[idx - 1]];
    var r1 := FeedAll(tail[1..], g.pending);
    var r2 := Feed(r1.filters, Eof);
    assert Feed(tail, Eof) == Fed([Emptied(g)] + r2.filters, r1.out + r2.out, |g.pending| + 1 + r1.steps + r2.steps);
    assert Emptied(fs[idx - 1]) == fs[idx - 1];
    assert FeedAll(tail, fs[idx - 1].pending) == Fed(tail, [], 0);
    assert [] + (r1.out + r2.out) == r1.out + r2.out;
    assert fs[..idx - 1] + [fs[idx - 1]] + ([Emptied(g)] + r2.filters) == fs1[..idx] + [Emptied(g)] + r2.filters;
  }

  /** Sending an input to the first filter and walking is feeding the chain. */
  lemma WalkIsFeed<S, P>(fs: seq<Filter<S, P>>, x: Input<P>)
    requires |fs| > 0 && AllIdle(fs)
    ensures Idle(fs[0]) && AllIdle(Sent(fs, 0, x)[1..])
    ensures Walk(Sent(fs, 0, x), 1) == Feed(fs, x)
  {
    var f, tail := Send(fs[0], x), fs[1..];
    var fs1 := Sent(fs, 0, x);
    assert fs1[0] == f && fs1[1..] == tail;
    var r1 := FeedAll(tail, f.pending);
    assert fs1[..0] + [Emptied(f)] + r1.filters == [Emptied(f)] + r1.filters;
    if x.Packet? {
      var fs2 := [Emptied(f)] + r1.filters;
      assert Walk(fs2, 0) == Fed(fs2, [], 0);
      assert r1.out + [] == r1.out;
    } else {
      var r2 := Feed(r1.filters, Eof);
      assert fs1[..0] + [Emptied(f)] + r2.filters == [Emptied(f)] + r2.filters;
    }
  }

  /** With the walk behind filter idx-1 and `written` behind it, the goal is what remains to be done. */
  ghost predicate Ahead<S, P>(fs: seq<Filter<S, P>>, idx: nat, written: seq<P>, goal: Fed<S, P>, steps: nat) {
    && idx <= |fs| && |fs| > 0 && AllIdle(fs[idx..])
    && Walk(fs, idx).filters == goal.filters
    && written + Walk(fs, idx).out == goal.out
    && Walk(fs, idx).steps == steps
  }

  lemma Starts<S, P>(fs: seq<Filter<S, P>>, x: Input<P>, written: seq<P>)
    requires |fs| > 0 && AllIdle(fs)
    ensures Idle(fs[0])
    ensures var r := Feed(fs, x);
            Ahead(Sent(fs, 0, x), 1, written, Fed(r.filters, written + r.out, 0), r.steps)
  {
    WalkIsFeed(fs, x);
  }

  lemma GoesUp<S, P>(fs: seq<Filter<S, P>>, idx: nat, written: seq<P>, goal: Fed<S, P>, steps: nat)
    requires idx > 0 && Ahead(fs, idx, written, goal, steps) && Receive(fs[idx - 1]).Again?
    ensures steps > 0 && Ahead(fs, idx - 1, written, goal, steps - 1)
  {
    WalkAgain(fs, idx);
  }

  lemma GoesDown<S, P>(fs: seq<Filter<S, P>>, idx: nat, written: seq<P>, goal: Fed<S, P>, steps: nat)
    requires idx > 0 && Ahead(fs, idx, written, goal, steps) && idx < |fs|
    ensures Receive(fs[idx - 1]).Got? ==>
              && Idle(fs[idx]) && steps > 0
              && Ahead(Sent(Taken(fs, idx), idx, Packet(fs[idx - 1].pending[0])), idx + 1, written, goal, steps - 1)
    ensures Receive(fs[idx - 1]).End? ==>
              && Idle(fs[idx]) && steps > 0
              && Ahead(Sent(fs, idx, Eof), idx + 1, written, goal, steps - 1)
  {
    hide Walk;
    if Receive(fs[idx - 1]).Got? {
      WalkSends(fs, idx);
    } else if Receive(fs[idx - 1]).End? {
      WalkPassesEnd(fs, idx);
    }
  }

  /** What has been written is part of what is to be. */
  lemma SoFar<S, P>(fs: seq<Filter<S, P>>, idx: nat, written: seq<P>, goal: Fed<S, P>, steps: nat)
    requires Ahead(fs, idx, written, goal, steps)
    ensures written <= goal.out
  {
  }

  lemma Writes<S, P>(fs: seq<Filter<S, P>>, written: seq<P>, goal: Fed<S, P>, steps: nat)
    requires Ahead(fs, |fs|, written, goal, steps) && Receive(fs[|fs| - 1]).Got?
    ensures steps > 0 && Ahead(Taken(fs, |fs|), |fs|, written + [fs[|fs| - 1].pending[0]], goal, steps - 1)
  {
    hide Walk;
    WalkWrites(fs);
    var p, rest := fs[|fs| - 1].pending[0], Walk(Taken(fs, |fs|), |fs|).out;
    assert (written + [p]) + rest == written + ([p] + rest);
    assert Taken(fs, |fs|)[|fs|..] == [];
  }

  /** The walk stops above the first filter, or with the end behind the last. */
  lemma Stops<S, P>(fs: seq<Filter<S, P>>, idx: nat, written: seq<P>, goal: Fed<S, P>, steps: nat)
    requires Ahead(fs, idx, written, goal, steps)
    requires idx == 0 || (idx == |fs| && Receive(fs[idx - 1]).End?)
    ensures fs == goal.filters && written == goal.out
  {
  }

  // ------------------------------------------------------------------ the method

  /** The call to a filter that fails, if any does: each turn of the walk receives once, and then sends at
      most once. */
  datatype Fault = Never | At(call: nat)

  predicate Fails(fault: Fault, call: nat) {
    fault == At(call)
  }

  /** The output stream: its filters, and what it has written. */
  class OutputStream<S, P> {
    var filters: seq<Filter<S, P>>
    ghost var written: seq<P>

    constructor (filters: seq<Filter<S, P>>)
      ensures this.filters == filters && written == []
    {
      this.filters := filters;
      written := [];
    }

    method WritePacket(p: P)
      modifies `written
      ensures written == old(written) + [p]
    {
      written := written + [p];
    }

    /** Sends a packet, or the end, through the filters; writes whatever comes out behind the last. A
        filter may refuse an input or fail to give a packet at any call; then the walk is given up. */
    method OutputPacket(x: Input<P>, fault: Fault) returns (ok: bool)
      requires AllIdle(filters)
      modifies this
      ensures fault.Never? ==> ok
      ensures ok ==> filters == Feed(old(filters), x).filters
      ensures ok ==> written == old(written) + Feed(old(filters), x).out
      ensures old(written) <= written <= old(written) + Feed(old(filters), x).out
      ensures fault == At(0) && |filters| > 0 ==> !ok && filters == old(filters) && written == old(written)
    {
      ok := true;
      if |filters| == 0 {
        if x.Packet? {
          WritePacket(x.packet);
        }
      } else {
        ok := FilterPacket(x, fault);
      }
    }

    /** The walk itself. */
    method FilterPacket(x: Input<P>, fault: Fault) returns (ok: bool)
      requires AllIdle(filters) && |filters| > 0
      modifies this
      ensures fault.Never? ==> ok
      ensures ok ==> filters == Feed(old(filters), x).filters
      ensures ok ==> written == old(written) + Feed(old(filters), x).out
      ensures old(written) <= written <= old(written) + Feed(old(filters), x).out
      ensures fault == At(0) ==> !ok && filters == old(filters) && written == old(written)
    {
      hide Walk, Feed, FeedAll, AllIdle, Pop, Send, Emptied;
      if Fails(fault, 0) {
        return false;
      }
      Starts(filters, x, written);
      ghost var goal, steps := Fed(Feed(filters, x).filters, written + Feed(filters, x).out, 0), Feed(filters, x).steps;
      filters := Sent(filters, 0, x);
      var idx, call := 1, 1;
      while idx != 0
        invariant Ahead(filters, idx, written, goal, steps)
        invariant old(written) <= written
        decreases steps
      {
        SoFar(filters, idx, written, goal, steps);
        if Fails(fault, call) || (idx < |filters| && Fails(fault, call + 1)) {
          return false;
        }
        match Receive(filters[idx - 1]) {
          case Again =>
            GoesUp(filters, idx, written, goal, steps);
            idx := idx - 1;
          case Got(p) =>
            if idx < |filters| {
              GoesDown(filters, idx, written, goal, steps);
              filters := Sent(Taken(filters, idx), idx, Packet(p));
              idx := idx + 1;
            } else {
              Writes(filters, written, goal, steps);
              filters := Taken(filters, idx);
              WritePacket(p);
            }
          case End =>
            if idx < |filters| {
              GoesDown(filters, idx, written, goal, steps);
              filters := Sent(filters, idx, Eof);
              idx := idx + 1;
            } else {
              Stops(filters, idx, written, goal, steps);
              return true;
            }
        }
        steps := steps - 1;
        call := call + 2;
      }
      Stops(filters, idx, written, goal, steps);
      return true;
    }
  }
}
