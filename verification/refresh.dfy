/**
 The refresh controller: the state the pull-to-refresh view keeps between
 measurements and the transition it performs on each one.

 A refresh is armed when the pull distance (the scroll offset) first
 exceeds the threshold, and the callback fires when, while armed, the pull
 distance falls back to the threshold or below, that is, when the user lets
 go and the content springs back. Each measurement is one atomic step; the
 callback is represented only by the `fired` flag of the step's result.
 */
module Refresh {
  import opened Preferences
  import opened Rotation

  /** The controller's fields: the offset seen at the previous measurement,
      the current offset, the (unused) content freeze flag, whether a
      refresh is armed, and the indicator angle in degrees. */
  datatype State = State(prev: real, offset: real, frozen: bool, refreshing: bool, rotation: real)

  /** The state a freshly mounted view starts in. */
  const Init: State := State(0.0, 0.5, false, false, 0.0)

  /** The result of one measurement: the next state and whether the refresh
      callback was invoked. */
  datatype Transition = Transition(next: State, fired: bool)

  /** The arming condition: not yet armed, and the offset passes strictly
      beyond the threshold coming from at or below it. */
  predicate Arms(s: State, offset: real, threshold: real)
  {
    !s.refreshing && offset > threshold && s.prev <= threshold
  }

  /** The release condition: the offset comes back from beyond the threshold
      to at or below it. */
  predicate Releases(s: State, offset: real, threshold: real)
  {
    s.prev > threshold && offset <= threshold
  }

  /** One measurement with the derived scroll offset `offset`. */
  function Step(s: State, offset: real, threshold: real): (t: Transition)
    requires threshold > 0.0
    // the new offset is recorded both as current and as the next step's previous one
    ensures t.next.offset == offset && t.next.prev == offset
    ensures t.next.rotation == SymbolRotation(offset, threshold)
    // a refresh is armed in this step exactly when the arming condition holds
    ensures !s.refreshing && t.next.refreshing <==> Arms(s, offset, threshold)
    // the callback fires exactly when the controller is armed after the
    // arming check and sees a release; since arming needs the previous offset
    // at or below the threshold, only a controller armed before the step fires
    ensures t.fired <==> (s.refreshing || Arms(s, offset, threshold)) && Releases(s, offset, threshold)
    ensures t.fired <==> s.refreshing && Releases(s, offset, threshold)
    ensures t.fired ==> !t.next.refreshing
    // an armed controller stays armed until it fires
    ensures s.refreshing && !t.fired ==> t.next.refreshing
    // no step both arms and fires
    ensures !(Arms(s, offset, threshold) && t.fired)
    // the freeze flag is never raised; it is cleared unless armed after the arming check
    ensures t.next.frozen ==> s.frozen
    ensures s.refreshing || Arms(s, offset, threshold) ==> t.next.frozen == s.frozen
    ensures !s.refreshing && !Arms(s, offset, threshold) ==> !t.next.frozen
  {
    var rotation := SymbolRotation(offset, threshold);
    var refreshing := if Arms(s, offset, threshold) then true else s.refreshing;
    var fired := refreshing && Releases(s, offset, threshold);
    var refreshing' := if fired then false else refreshing;
    var frozen := if refreshing then s.frozen else false;
    Transition(State(offset, offset, frozen, refreshing', rotation), fired)
  }

  /** The measurement handler: derive the offset from the folded reports and
      take one step. */
  function RefreshLogic(s: State, values: seq<PrefData>, threshold: real): (t: Transition)
    requires threshold > 0.0
    ensures forall i, j :: IsFirst(values, MovingView, i) && IsFirst(values, FixedView, j) ==>
              t.next.prev == MinY(values[i].bounds) - MinY(values[j].bounds)
    ensures (forall i :: 0 <= i < |values| ==> values[i].vType != FixedView) ==>
              forall i :: IsFirst(values, MovingView, i) ==> t.next.prev == MinY(values[i].bounds)
    ensures (forall i :: 0 <= i < |values| ==> values[i].vType != MovingView) ==>
              forall j :: IsFirst(values, FixedView, j) ==> t.next.prev == -MinY(values[j].bounds)
    ensures (forall i :: 0 <= i < |values| ==> values[i].vType != MovingView && values[i].vType != FixedView) ==>
              t.next.prev == 0.0
    ensures t == Step(s, t.next.offset, threshold)
  {
    Step(s, ScrollOffset(values), threshold)
  }

  /** The one-way invariant: an armed controller last saw the offset beyond
      the threshold. */
  predicate ArmedBeyond(s: State, threshold: real)
  {
    s.refreshing ==> s.prev > threshold
  }

  /** The invariant of every state reachable from `Init`: armed exactly when
      the last offset was beyond the threshold, and never frozen. */
  predicate Synced(s: State, threshold: real)
  {
    (s.refreshing <==> s.prev > threshold) && !s.frozen
  }

  lemma InitSynced(threshold: real)
    requires threshold > 0.0
    ensures Synced(Init, threshold) && ArmedBeyond(Init, threshold)
    ensures Init.prev == 0.0 && Init.offset == 0.5 && Init.rotation == 0.0
  {
  }

  /** A step keeps an armed controller's last offset beyond the threshold. */
  lemma StepKeepsArmedBeyond(s: State, offset: real, threshold: real)
    requires threshold > 0.0
    requires ArmedBeyond(s, threshold)
    ensures ArmedBeyond(Step(s, offset, threshold).next, threshold)
  {
  }

  /** A step keeps the armed flag in sync with the last offset. */
  lemma StepKeepsSynced(s: State, offset: real, threshold: real)
    requires threshold > 0.0
    requires Synced(s, threshold)
    ensures Synced(Step(s, offset, threshold).next, threshold)
  {
  }

  /** In a synced controller the edges are plain threshold crossings: it arms
      exactly on a downward pull past the threshold and fires exactly when
      the offset returns from beyond the threshold to at or below it. */
  lemma SyncedStepEdges(s: State, offset: real, threshold: real)
    requires threshold > 0.0
    requires Synced(s, threshold)
    ensures Arms(s, offset, threshold) <==> s.prev <= threshold && offset > threshold
    ensures Step(s, offset, threshold).fired <==> Releases(s, offset, threshold)
  {
  }
}
