/** The idle watcher: each poll turns the seconds since the last user input
    into one or two idle/active pings, following the afk watcher of
    ActivityWatch, and carries the idle flag to the next poll. Times are
    integer milliseconds. */
module Idle {
  import opened Wrappers

  /** Milliseconds in a second. */
  const MsPerSecond: int := 1000

  /** The offset of the second ping of a transition after the first. */
  const OneMs: int := 1

  /** One call `ping(was_idle, timestamp, duration)` of the report client. */
  datatype Ping = Ping(wasIdle: bool, timestampMs: int, durationMs: int)

  /** The next idle flag and the pings that announce it, in order. */
  datatype Step = Step(isIdle: bool, pings: seq<Ping>)

  /** Why one poll failed. */
  datatype IdleError =
    | SampleUnavailable  // the idle counter could not be read
    | PingFailed         // a report call returned an error

  /** The report calls one poll made (the last one is the one that failed,
      when the poll failed on a report) and the poll's result. */
  datatype RunOutcome = RunOutcome(calls: seq<Ping>, result: Result<bool, IdleError>)

  /** The report calls made for a list of pings, and whether all succeeded. */
  datatype Delivery = Delivery(calls: seq<Ping>, ok: bool)

  /** One poll of the watch loop: the idle counter's answer (`None` when it
      could not be read), the clock, and the index of the first report call
      of the poll that fails (`None` when none fails). */
  datatype Tick = Tick(sample: Option<nat>, nowMs: int, failAt: Option<nat>)

  /** The idle flag after a run of polls and every report call they made. */
  datatype Session = Session(isIdle: bool, calls: seq<Ping>)

  /** When the last input happened, `s` seconds before `nowMs`. */
  function LastInputMs(nowMs: int, s: nat): int {
    nowMs - s * MsPerSecond
  }

  /** The decision of one poll: with `s` seconds since the last input and an
      idle timeout of `timeoutSecs` seconds, the new idle flag and the pings
      to send. A transition sends two pings, the second 1 ms after the
      first; otherwise one ping is sent. Every ping carries the flag from
      before the poll; only the last ping of a poll that ends idle carries
      the idle time as its duration. */
  function Transition(isIdle: bool, s: nat, nowMs: int, timeoutSecs: nat): (r: Step)
    ensures r.isIdle == (s >= timeoutSecs)
    ensures |r.pings| == (if r.isIdle != isIdle then 2 else 1)
    ensures forall i :: 0 <= i < |r.pings| ==> r.pings[i].wasIdle == isIdle
    ensures r.pings[0].timestampMs == LastInputMs(nowMs, s)
    ensures |r.pings| == 2 ==> r.pings[1].timestampMs == LastInputMs(nowMs, s) + OneMs
    ensures forall i :: 0 <= i < |r.pings| ==>
      LastInputMs(nowMs, s) <= r.pings[i].timestampMs <= LastInputMs(nowMs, s) + OneMs
    ensures |r.pings| == 2 ==> r.pings[0].timestampMs < r.pings[1].timestampMs
    ensures forall i :: 0 <= i < |r.pings| ==>
      r.pings[i].durationMs == (if i == |r.pings| - 1 && r.isIdle then s * MsPerSecond else 0)
  {
    var lastInput := LastInputMs(nowMs, s);
    var sinceInput := s * MsPerSecond;
    if isIdle && s < timeoutSecs then
      // no longer idle
      Step(false, [Ping(isIdle, lastInput, 0), Ping(isIdle, lastInput + OneMs, 0)])
    else if !isIdle && s >= timeoutSecs then
      // idle again
      Step(true, [Ping(isIdle, lastInput, 0), Ping(isIdle, lastInput + OneMs, sinceInput)])
    else if isIdle then
      Step(isIdle, [Ping(isIdle, lastInput, sinceInput)])
    else
      Step(isIdle, [Ping(isIdle, lastInput, 0)])
  }

  /** Sends `pings` one after the other, each call's error ending the poll:
      the call with index `failAt` fails. */
  function Deliver(pings: seq<Ping>, failAt: Option<nat>): (d: Delivery)
    ensures d.ok <==> (failAt.None? || failAt.value >= |pings|)
    ensures d.ok ==> d.calls == pings
    ensures !d.ok ==> d.calls == pings[..failAt.value + 1]
    decreases |pings|
  {
    if pings == [] then Delivery([], true)
    else if failAt == Some(0) then Delivery([pings[0]], false)
    else
      var rest := Deliver(pings[1..], if failAt.Some? then Some(failAt.value - 1) else None);
      Delivery([pings[0]] + rest.calls, rest.ok)
  }

  /** One poll: read the idle counter, decide, and send the pings. On any
      error the poll ends at once and returns the error. */
  function Run(isIdle: bool, sample: Option<nat>, nowMs: int, timeoutSecs: nat, failAt: Option<nat>): (o: RunOutcome)
    ensures sample.None? ==> o == RunOutcome([], Err(SampleUnavailable))
    ensures o.result.Ok? ==> sample.Some? && o.result.value == (sample.value >= timeoutSecs)
    ensures o.result.Err? ==> o.result.error == SampleUnavailable || failAt.Some?
    ensures sample.Some? ==>
      var step := Transition(isIdle, sample.value, nowMs, timeoutSecs);
      && (o.result.Ok? <==> failAt.None? || failAt.value >= |step.pings|)
      && (o.result.Ok? ==> o.calls == step.pings)
      && (o.result.Err? ==> o.result == Err(PingFailed) && o.calls == step.pings[..failAt.value + 1])
  {
    match sample
    case None => RunOutcome([], Err(SampleUnavailable))
    case Some(s) =>
      var step := Transition(isIdle, s, nowMs, timeoutSecs);
      var d := Deliver(step.pings, failAt);
      RunOutcome(d.calls, if d.ok then Ok(step.isIdle) else Err(PingFailed))
  }

  /** The flag the loop carries past one poll: the poll's result, or the
      flag unchanged when the poll failed. */
  function NextIdle(isIdle: bool, t: Tick, timeoutSecs: nat): bool {
    match Run(isIdle, t.sample, t.nowMs, timeoutSecs, t.failAt).result
    case Ok(next) => next
    case Err(_) => isIdle
  }

  /** The polls `ticks`, run in order from the flag `isIdle`. */
  function WatchFrom(isIdle: bool, ticks: seq<Tick>, timeoutSecs: nat): Session
    decreases |ticks|
  {
    if ticks == [] then Session(isIdle, [])
    else
      var o := Run(isIdle, ticks[0].sample, ticks[0].nowMs, timeoutSecs, ticks[0].failAt);
      var rest := WatchFrom(NextIdle(isIdle, ticks[0], timeoutSecs), ticks[1..], timeoutSecs);
      Session(rest.isIdle, o.calls + rest.calls)
  }

  /** The watch loop over a finite run of polls: it starts active, and
      keeps its flag across a poll that fails. */
  method Watch(ticks: seq<Tick>, timeoutSecs: nat) returns (isIdle: bool, calls: seq<Ping>)
    ensures Session(isIdle, calls) == WatchFrom(false, ticks, timeoutSecs)
  {
    isIdle, calls := false, [];
    var i := 0;
    while i < |ticks|
      invariant 0 <= i <= |ticks|
      invariant WatchFrom(isIdle, ticks[i..], timeoutSecs).isIdle == WatchFrom(false, ticks, timeoutSecs).isIdle
      invariant calls + WatchFrom(isIdle, ticks[i..], timeoutSecs).calls == WatchFrom(false, ticks, timeoutSecs).calls
    {
      var t := ticks[i];
      assert ticks[i..][0] == t && ticks[i..][1..] == ticks[i + 1..];
      var o := Run(isIdle, t.sample, t.nowMs, timeoutSecs, t.failAt);
      calls := calls + o.calls;
      match o.result {
        case Ok(next) => isIdle := next;
        case Err(_) =>
      }
      i := i + 1;
    }
  }

  /** A poll that reads the counter and whose report calls all succeed. */
  predicate Reliable(t: Tick) {
    t.sample.Some? && t.failAt.None?
  }

  /** A poll that fails before any report call succeeds. */
  predicate FailsAtOnce(t: Tick) {
    t.sample.None? || t.failAt == Some(0)
  }

  /** When every poll succeeds, the flag after them is decided by the last
      sample alone. */
  lemma {:induction false} ReliableFlagFollowsLastSample(isIdle: bool, ticks: seq<Tick>, timeoutSecs: nat)
    requires |ticks| > 0
    requires forall i :: 0 <= i < |ticks| ==> Reliable(ticks[i])
    ensures var last := ticks[|ticks| - 1];
      Reliable(last) && WatchFrom(isIdle, ticks, timeoutSecs).isIdle == (last.sample.value >= timeoutSecs)
    decreases |ticks|
  {
    assert Reliable(ticks[0]);
    if |ticks| > 1 {
      var rest := ticks[1..];
      assert forall i :: 0 <= i < |rest| ==> Reliable(rest[i]) by {
        forall i | 0 <= i < |rest| ensures Reliable(rest[i]) {
          assert rest[i] == ticks[i + 1];
        }
      }
      ReliableFlagFollowsLastSample(NextIdle(isIdle, ticks[0], timeoutSecs), rest, timeoutSecs);
      assert rest[|rest| - 1] == ticks[|ticks| - 1];
    }
  }

  /** True when the poll `t`, run from the flag `isIdle`, ends in an error:
      an unreadable sample or any failing report call, the second ping of a
      transition included. */
  predicate PollFails(isIdle: bool, t: Tick, timeoutSecs: nat) {
    Run(isIdle, t.sample, t.nowMs, timeoutSecs, t.failAt).result.Err?
  }

  /** Polls that end in an error, whichever call fails, never change the
      flag. */
  lemma {:induction false} FailedPollsKeepFlag(isIdle: bool, ticks: seq<Tick>, timeoutSecs: nat)
    requires forall i :: 0 <= i < |ticks| ==> PollFails(isIdle, ticks[i], timeoutSecs)
    ensures WatchFrom(isIdle, ticks, timeoutSecs).isIdle == isIdle
    decreases |ticks|
  {
    if ticks != [] {
      assert PollFails(isIdle, ticks[0], timeoutSecs);
      var rest := ticks[1..];
      assert forall i :: 0 <= i < |rest| ==> PollFails(isIdle, rest[i], timeoutSecs) by {
        forall i | 0 <= i < |rest| ensures PollFails(isIdle, rest[i], timeoutSecs) {
          assert rest[i] == ticks[i + 1];
        }
      }
      FailedPollsKeepFlag(isIdle, rest, timeoutSecs);
    }
  }

  /** Polls that fail before any report call succeeds make at most one
      report call each, and keep the flag. */
  lemma {:induction false} FailingAtOnceCallBound(isIdle: bool, ticks: seq<Tick>, timeoutSecs: nat)
    requires forall i :: 0 <= i < |ticks| ==> FailsAtOnce(ticks[i])
    ensures WatchFrom(isIdle, ticks, timeoutSecs).isIdle == isIdle
    ensures |WatchFrom(isIdle, ticks, timeoutSecs).calls| <= |ticks|
    decreases |ticks|
  {
    if ticks != [] {
      assert FailsAtOnce(ticks[0]);
      FailingAtOnceCallBound(isIdle, ticks[1..], timeoutSecs);
    }
  }

  /** A transition whose second ping fails keeps the old flag, so the next
      poll that still sees a transition sends both boundary pings again:
      the calls of the two polls are the two transitions' pings, in order,
      and the first ping of the second poll repeats the zero-length ping
      that closes the old state. */
  lemma {:induction false} FailedTransitionRepeats(isIdle: bool, t1: Tick, t2: Tick, timeoutSecs: nat)
    requires t1.sample.Some? && (t1.sample.value >= timeoutSecs) != isIdle && t1.failAt == Some(1)
    requires Reliable(t2) && (t2.sample.value >= timeoutSecs) != isIdle
    ensures var w := WatchFrom(isIdle, [t1, t2], timeoutSecs);
      && NextIdle(isIdle, t1, timeoutSecs) == isIdle
      && w.isIdle == !isIdle
      && w.calls == Transition(isIdle, t1.sample.value, t1.nowMs, timeoutSecs).pings
                    + Transition(isIdle, t2.sample.value, t2.nowMs, timeoutSecs).pings
      && |w.calls| == 4
      && w.calls[2] == Ping(isIdle, LastInputMs(t2.nowMs, t2.sample.value), 0)
  {
    var ticks := [t1, t2];
    var p1 := Transition(isIdle, t1.sample.value, t1.nowMs, timeoutSecs).pings;
    var p2 := Transition(isIdle, t2.sample.value, t2.nowMs, timeoutSecs).pings;
    assert p1[..2] == p1;
    assert ticks[1..] == [t2];
    assert [t2][1..] == [];
    assert WatchFrom(isIdle, [t2], timeoutSecs) == Session(!isIdle, p2 + []);
  }

  /** A sample on the same side of the timeout as the flag. */
  predicate Steady(isIdle: bool, t: Tick, timeoutSecs: nat) {
    Reliable(t) && (t.sample.value >= timeoutSecs) == isIdle
  }

  /** Polls without a transition keep the flag and send exactly one ping
      each, reporting the current state. */
  lemma {:induction false} SteadyPollsOnePingEach(isIdle: bool, ticks: seq<Tick>, timeoutSecs: nat)
    requires forall i :: 0 <= i < |ticks| ==> Steady(isIdle, ticks[i], timeoutSecs)
    ensures WatchFrom(isIdle, ticks, timeoutSecs).isIdle == isIdle
    ensures |WatchFrom(isIdle, ticks, timeoutSecs).calls| == |ticks|
    ensures forall j :: 0 <= j < |ticks| ==> WatchFrom(isIdle, ticks, timeoutSecs).calls[j].wasIdle == isIdle
    decreases |ticks|
  {
    if ticks != [] {
      assert Steady(isIdle, ticks[0], timeoutSecs);
      var rest := ticks[1..];
      assert forall i :: 0 <= i < |rest| ==> Steady(isIdle, rest[i], timeoutSecs) by {
        forall i | 0 <= i < |rest| ensures Steady(isIdle, rest[i], timeoutSecs) {
          assert rest[i] == ticks[i + 1];
        }
      }
      SteadyPollsOnePingEach(isIdle, rest, timeoutSecs);
    }
  }

  /** With a timeout of 300 s: 299 s keeps the watcher active with one
      ping, 300 s makes it idle with two pings that close the active
      interval and open an idle one of 300 s, and 5 s brings it back with
      two zero-length pings. */
  lemma TimeoutExample(now1: int, now2: int, now3: int)
    ensures var ticks := [Tick(Some(299), now1, None), Tick(Some(300), now2, None), Tick(Some(5), now3, None)];
      WatchFrom(false, ticks, 300) == Session(false, [
        Ping(false, now1 - 299000, 0),
        Ping(false, now2 - 300000, 0), Ping(false, now2 - 300000 + 1, 300000),
        Ping(true, now3 - 5000, 0), Ping(true, now3 - 5000 + 1, 0)])
  {
    var ticks := [Tick(Some(299), now1, None), Tick(Some(300), now2, None), Tick(Some(5), now3, None)];
    assert ticks[1..] == [Tick(Some(300), now2, None), Tick(Some(5), now3, None)];
    assert ticks[1..][1..] == [Tick(Some(5), now3, None)];
    assert ticks[1..][1..][1..] == [];
    assert WatchFrom(true, ticks[1..][1..], 300) ==
      Session(false, [Ping(true, now3 - 5000, 0), Ping(true, now3 - 5000 + 1, 0)]);
    assert WatchFrom(false, ticks[1..], 300) ==
      Session(false, [Ping(false, now2 - 300000, 0), Ping(false, now2 - 300000 + 1, 300000),
                      Ping(true, now3 - 5000, 0), Ping(true, now3 - 5000 + 1, 0)]);
  }
}
