/**
 Runs of the refresh controller over a sequence of scroll offsets: the
 events each step produces, how many times the callback fires, and the
 facts that hold of every run.
 */
module Runs {
  import opened Refresh

  /** What a single step did, as seen from outside. */
  datatype Event = Quiet | Armed | Fired

  function EventOf(s: State, t: Transition): Event
  {
    if t.fired then Fired
    else if !s.refreshing && t.next.refreshing then Armed
    else Quiet
  }

  /** The state after the last step and the event of every step, in order. */
  datatype RunResult = RunResult(last: State, events: seq<Event>)

  /** Feed the offsets to the controller one measurement at a time. */
  function Run(s: State, offsets: seq<real>, threshold: real): (r: RunResult)
    requires threshold > 0.0
    ensures |r.events| == |offsets|
    ensures r.last.prev == LastOffset(s.prev, offsets)
    ensures |offsets| == 0 ==> r.last == s
    ensures r.last.frozen ==> s.frozen
    decreases |offsets|
  {
    if |offsets| == 0 then RunResult(s, [])
    else
      var t := Step(s, offsets[0], threshold);
      var rest := Run(t.next, offsets[1..], threshold);
      RunResult(rest.last, [EventOf(s, t)] + rest.events)
  }

  /** The offset seen last: the final element, or `prev` when there is none. */
  function LastOffset(prev: real, offsets: seq<real>): real
  {
    if |offsets| == 0 then prev else offsets[|offsets| - 1]
  }

  /** How many times `e` occurs in `events`. */
  function Count(events: seq<Event>, e: Event): nat
  {
    if |events| == 0 then 0
    else (if events[0] == e then 1 else 0) + Count(events[1..], e)
  }

  /** How many times the refresh callback fired during a run. */
  function Fires(r: RunResult): nat
  {
    Count(r.events, Fired)
  }

  /** Reference count of falling crossings: steps whose offset is at or below
      the threshold while the previous offset was beyond it. */
  function FallingCrossings(prev: real, offsets: seq<real>, threshold: real): nat
    decreases |offsets|
  {
    if |offsets| == 0 then 0
    else (if prev > threshold && offsets[0] <= threshold then 1 else 0)
         + FallingCrossings(offsets[0], offsets[1..], threshold)
  }

  /** Reference count of rising crossings: steps whose offset is beyond the
      threshold while the previous offset was at or below it. */
  function RisingCrossings(prev: real, offsets: seq<real>, threshold: real): nat
    decreases |offsets|
  {
    if |offsets| == 0 then 0
    else (if prev <= threshold && offsets[0] > threshold then 1 else 0)
         + RisingCrossings(offsets[0], offsets[1..], threshold)
  }

  /** Arms and fires alternate: ignoring quiet steps, the events are
      Armed, Fired, Armed, Fired, ... when starting unarmed, and
      Fired, Armed, Fired, ... when starting armed. */
  predicate Alternates(events: seq<Event>, armed: bool)
  {
    if |events| == 0 then true
    else match events[0]
      case Quiet => Alternates(events[1..], armed)
      case Armed => !armed && Alternates(events[1..], true)
      case Fired => armed && Alternates(events[1..], false)
  }

  /** Running over a concatenation is running over each part in turn. */
  lemma {:induction false} RunAppend(s: State, a: seq<real>, b: seq<real>, threshold: real)
    requires threshold > 0.0
    ensures var ra := Run(s, a, threshold);
            var rb := Run(ra.last, b, threshold);
            Run(s, a + b, threshold) == RunResult(rb.last, ra.events + rb.events)
    decreases |a|
  {
    if |a| == 0 {
      assert a + b == b;
    } else {
      var t := Step(s, a[0], threshold);
      assert (a + b)[1..] == a[1..] + b;
      RunAppend(t.next, a[1..], b, threshold);
    }
  }

  lemma {:induction false} CountAppend(a: seq<Event>, b: seq<Event>, e: Event)
    ensures Count(a + b, e) == Count(a, e) + Count(b, e)
  {
    if |a| == 0 {
      assert a + b == b;
    } else {
      assert (a + b)[1..] == a[1..] + b;
      CountAppend(a[1..], b, e);
    }
  }

  /** Starting from a state where an armed controller's last offset is
      beyond the threshold, every state of the run is such a state. */
  lemma {:induction false} RunKeepsArmedBeyond(s: State, offsets: seq<real>, threshold: real)
    requires threshold > 0.0
    requires ArmedBeyond(s, threshold)
    ensures ArmedBeyond(Run(s, offsets, threshold).last, threshold)
    decreases |offsets|
  {
    if |offsets| > 0 {
      StepKeepsArmedBeyond(s, offsets[0], threshold);
      RunKeepsArmedBeyond(Step(s, offsets[0], threshold).next, offsets[1..], threshold);
    }
  }

  /** A synced controller stays synced, and in particular never freezes. */
  lemma {:induction false} RunKeepsSynced(s: State, offsets: seq<real>, threshold: real)
    requires threshold > 0.0
    requires Synced(s, threshold)
    ensures Synced(Run(s, offsets, threshold).last, threshold)
    ensures !Run(s, offsets, threshold).last.frozen
    decreases |offsets|
  {
    if |offsets| > 0 {
      StepKeepsSynced(s, offsets[0], threshold);
      RunKeepsSynced(Step(s, offsets[0], threshold).next, offsets[1..], threshold);
    }
  }

  /** For a synced controller the callback fires once per falling crossing
      and a refresh is armed once per rising crossing. */
  lemma {:induction false} RunCountsCrossings(s: State, offsets: seq<real>, threshold: real)
    requires threshold > 0.0
    requires Synced(s, threshold)
    ensures Fires(Run(s, offsets, threshold)) == FallingCrossings(s.prev, offsets, threshold)
    ensures Count(Run(s, offsets, threshold).events, Armed) == RisingCrossings(s.prev, offsets, threshold)
    decreases |offsets|
  {
    if |offsets| > 0 {
      var t := Step(s, offsets[0], threshold);
      SyncedStepEdges(s, offsets[0], threshold);
      StepKeepsSynced(s, offsets[0], threshold);
      RunCountsCrossings(t.next, offsets[1..], threshold);
      var r := Run(s, offsets, threshold);
      assert r.events[1..] == Run(t.next, offsets[1..], threshold).events;
    }
  }

  /** Whatever state a run starts in, its arms and fires alternate. */
  lemma {:induction false} RunAlternates(s: State, offsets: seq<real>, threshold: real)
    requires threshold > 0.0
    ensures Alternates(Run(s, offsets, threshold).events, s.refreshing)
    decreases |offsets|
  {
    if |offsets| > 0 {
      var t := Step(s, offsets[0], threshold);
      RunAlternates(t.next, offsets[1..], threshold);
      var r := Run(s, offsets, threshold);
      assert r.events[1..] == Run(t.next, offsets[1..], threshold).events;
    }
  }

  /** In an alternating trace, a fire is followed by an arm before the next fire. */
  lemma {:induction false} ArmBetweenFires(events: seq<Event>, armed: bool, i: int, j: int)
    requires Alternates(events, armed)
    requires 0 <= i < j < |events|
    requires events[i] == Fired && events[j] == Fired
    ensures exists k :: i < k < j && events[k] == Armed
    decreases |events|
  {
    if i == 0 {
      assert Alternates(events[1..], false);
      FirstFireNeedsArm(events[1..], j - 1);
      var k :| 0 <= k < j - 1 && events[1..][k] == Armed;
      assert events[k + 1] == Armed;
    } else {
      var next := match events[0] case Quiet => armed case Armed => true case Fired => false;
      assert Alternates(events[1..], next);
      ArmBetweenFires(events[1..], next, i - 1, j - 1);
      var k :| i - 1 < k < j - 1 && events[1..][k] == Armed;
      assert events[k + 1] == Armed;
    }
  }

  /** In an alternating trace that starts unarmed, every fire is preceded by an arm. */
  lemma {:induction false} FirstFireNeedsArm(events: seq<Event>, j: int)
    requires Alternates(events, false)
    requires 0 <= j < |events| && events[j] == Fired
    ensures exists k :: 0 <= k < j && events[k] == Armed
    decreases |events|
  {
    if events[0] != Armed {
      assert events[0] == Quiet;
      FirstFireNeedsArm(events[1..], j - 1);
      var k :| 0 <= k < j - 1 && events[1..][k] == Armed;
      assert events[k + 1] == Armed;
    }
  }

  /** Between any two firings of a run there is a step that armed a refresh. */
  lemma RunArmsBetweenFires(s: State, offsets: seq<real>, threshold: real, i: int, j: int)
    requires threshold > 0.0
    requires 0 <= i < j < |offsets|
    requires Run(s, offsets, threshold).events[i] == Fired
    requires Run(s, offsets, threshold).events[j] == Fired
    ensures exists k :: i < k < j && Run(s, offsets, threshold).events[k] == Armed
  {
    RunAlternates(s, offsets, threshold);
    ArmBetweenFires(Run(s, offsets, threshold).events, s.refreshing, i, j);
  }

  /** Each arm is consumed by at most one fire. */
  lemma {:induction false} FiresBoundedByArms(events: seq<Event>, armed: bool)
    requires Alternates(events, armed)
    ensures Count(events, Fired) <= Count(events, Armed) + (if armed then 1 else 0)
    ensures Count(events, Armed) <= Count(events, Fired) + (if armed then 0 else 1)
    decreases |events|
  {
    if |events| > 0 {
      var next := match events[0] case Quiet => armed case Armed => true case Fired => false;
      FiresBoundedByArms(events[1..], next);
    }
  }

  /** `cycle` repeated `n` times. */
  function Repeat(cycle: seq<real>, n: nat): (r: seq<real>)
    ensures |r| == n * |cycle|
  {
    if n == 0 then [] else cycle + Repeat(cycle, n - 1)
  }

  /** No permanent latch: pulling past the threshold and releasing fires the
      callback once every time, however often it is repeated. */
  lemma {:induction false} RepeatedPullsFireEachTime(s: State, high: real, low: real, n: nat, threshold: real)
    requires threshold > 0.0
    requires Synced(s, threshold)
    requires high > threshold >= low
    ensures Fires(Run(s, Repeat([high, low], n), threshold)) == n
    ensures n > 0 ==> !Run(s, Repeat([high, low], n), threshold).last.refreshing
    decreases n
  {
    if n > 0 {
      var first := Run(s, [high, low], threshold);
      assert Fires(first) == 1 by {
        var t := Step(s, high, threshold);
        var u := Step(t.next, low, threshold);
        assert t.next.refreshing && t.next.prev == high;
        assert u.fired;
        assert [high, low][1..] == [low];
        assert Run(u.next, [], threshold).events == [];
        assert Run(t.next, [low], threshold).events == [Fired];
        assert first.events == [EventOf(s, t)] + [Fired];
        assert EventOf(s, t) != Fired;
        CountAppend([EventOf(s, t)], [Fired], Fired);
      }
      RunAppend(s, [high, low], Repeat([high, low], n - 1), threshold);
      RunKeepsSynced(s, [high, low], threshold);
      RepeatedPullsFireEachTime(first.last, high, low, n - 1, threshold);
      CountAppend(first.events, Run(first.last, Repeat([high, low], n - 1), threshold).events, Fired);
    }
  }

  /** Pulling to 111 and releasing to 109 with a threshold of 110 fires once,
      at the release. */
  lemma PullPastAndReleaseFiresOnce()
    ensures Run(Init, [0.0, 50.0, 111.0, 109.0, 60.0], 110.0).events
         == [Quiet, Quiet, Armed, Fired, Quiet]
    ensures Fires(Run(Init, [0.0, 50.0, 111.0, 109.0, 60.0], 110.0)) == 1
  {
    var events := Run(Init, [0.0, 50.0, 111.0, 109.0, 60.0], 110.0).events;
    assert events == [Quiet, Quiet, Armed] + [Fired] + [Quiet];
    CountAppend([Quiet, Quiet, Armed] + [Fired], [Quiet], Fired);
    CountAppend([Quiet, Quiet, Armed], [Fired], Fired);
    CountAppend([Quiet, Quiet], [Armed], Fired);
    CountAppend([Quiet], [Quiet], Fired);
  }

  /** Reaching the threshold without passing it never arms, so never fires. */
  lemma ReachingThresholdNeverFires()
    ensures Run(Init, [0.0, 50.0, 110.0, 100.0], 110.0).events == [Quiet, Quiet, Quiet, Quiet]
    ensures Fires(Run(Init, [0.0, 50.0, 110.0, 100.0], 110.0)) == 0
  {
    var events := Run(Init, [0.0, 50.0, 110.0, 100.0], 110.0).events;
    assert events == [Quiet, Quiet] + [Quiet, Quiet];
    CountAppend([Quiet, Quiet], [Quiet, Quiet], Fired);
    CountAppend([Quiet], [Quiet], Fired);
    assert [Quiet, Quiet] == [Quiet] + [Quiet];
  }

  /** Appending one offset adds one falling crossing exactly when the offset
      seen last was beyond the threshold and the new one is at or below it. */
  lemma {:induction false} FallingCrossingsSnoc(prev: real, offsets: seq<real>, x: real, threshold: real)
    ensures FallingCrossings(prev, offsets + [x], threshold)
         == FallingCrossings(prev, offsets, threshold)
            + (if LastOffset(prev, offsets) > threshold && x <= threshold then 1 else 0)
    decreases |offsets|
  {
    if |offsets| > 0 {
      assert (offsets + [x])[1..] == offsets[1..] + [x];
      FallingCrossingsSnoc(offsets[0], offsets[1..], x, threshold);
      assert LastOffset(offsets[0], offsets[1..]) == LastOffset(prev, offsets);
    }
  }

  /** The view's measurement loop: start mounted, take one step per offset,
      and count the callback invocations. */
  method Simulate(offsets: seq<real>, threshold: real) returns (s: State, fires: nat)
    requires threshold > 0.0
    ensures s == Run(Init, offsets, threshold).last
    ensures fires == Fires(Run(Init, offsets, threshold))
    ensures fires == FallingCrossings(Init.prev, offsets, threshold)
    ensures Synced(s, threshold)
    ensures s.prev == LastOffset(Init.prev, offsets)
  {
    s := Init;
    fires := 0;
    var i := 0;
    while i < |offsets|
      invariant 0 <= i <= |offsets|
      invariant Synced(s, threshold)
      invariant s.prev == LastOffset(Init.prev, offsets[..i])
      invariant fires == FallingCrossings(Init.prev, offsets[..i], threshold)
      invariant s == Run(Init, offsets[..i], threshold).last
      invariant fires == Fires(Run(Init, offsets[..i], threshold))
    {
      var t := Step(s, offsets[i], threshold);
      SyncedStepEdges(s, offsets[i], threshold);
      StepKeepsSynced(s, offsets[i], threshold);
      FallingCrossingsSnoc(Init.prev, offsets[..i], offsets[i], threshold);
      assert offsets[..i + 1] == offsets[..i] + [offsets[i]];
      var before := Run(Init, offsets[..i], threshold);
      var one := Run(s, [offsets[i]], threshold);
      RunAppend(Init, offsets[..i], [offsets[i]], threshold);
      CountAppend(before.events, one.events, Fired);
      assert one.last == t.next && one.events == [EventOf(s, t)];
      if t.fired {
        fires := fires + 1;
      }
      s := t.next;
      i := i + 1;
    }
    assert offsets[..i] == offsets;
  }
}
