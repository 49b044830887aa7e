# Pull-to-refresh controller of `TestRe`

`TestRe` is a SwiftUI scroll view with pull-to-refresh. Two invisible views
report their frames through one preference key. The "moving" view scrolls
with the content and the "fixed" view is the viewport. On every report the
view's `refreshLogic` does three things. It derives the scroll offset, which
is how far the content has been pulled down. It updates the indicator angle
(`symbolRotation`). It runs a small edge-triggered state machine that arms a
refresh when the pull first goes strictly past `threshold` (110 by default).
It fires the `onRefresh` callback once when, while armed, the offset falls
back to the threshold or below.

The model is functional: an immutable `State` record, a pure `Step` over
`real`s, and a recursive `Run` over a sequence of offsets that records the
event of each step.

- `preferences.dfy` (module `Preferences`): view kinds, rectangles and
  measurement records. It models the preference key's fold (`Reduce`), the
  first-match lookup with a zero-rectangle default (`FirstOf`, `BoundsOf`),
  and the offset derivation (`ScrollOffset`).
- `rotation.dfy` (module `Rotation`): the indicator angle, 0 to 180 degrees,
  ramping over the last 40% of the threshold.
- `refresh.dfy` (module `Refresh`): the controller state, the initial state,
  one measurement step (`Step`, `RefreshLogic`) and its invariants.
- `runs.dfy` (module `Runs`): runs over offset sequences, firing counts
  compared against an independent count of threshold crossings, the
  alternation of arms and fires, "no permanent latch", the two concrete
  scenarios, and an imperative measurement loop (`Simulate`).

The threshold is a parameter with `requires threshold > 0`. The source never
checks it, so the model makes positivity a precondition.

A consequence worth noting: in every state reachable from the initial one, the
controller is armed exactly when the last offset was beyond the threshold. The
invariant is an if-and-only-if, not just an implication. So, from mount, the
callback fires exactly on every falling crossing of the threshold
(`RunCountsCrossings`).

## Model

| member | source | states |
|---|---|---|
| Preferences.MinY | Sources/TestRe/TestRe.swift:52 | the top edge of a reported frame is the smaller of its origin y and origin y plus height, so a frame with negative height is measured from its upper end |
| Preferences.Reduce | Sources/TestRe/TestRe.swift:171-173 | folding a sibling's reports appends them after those gathered so far: every earlier record keeps its position and the new ones follow in order |
| Preferences.FirstOf | Sources/TestRe/TestRe.swift:49-50 | the lookup finds nothing exactly when no record has the requested kind; otherwise it returns the bounds of the earliest record of that kind |
| Preferences.BoundsOf | Sources/TestRe/TestRe.swift:49-50 | a kind with no record yields the zero rectangle; otherwise it yields the bounds of its earliest record |
| Preferences.ScrollOffset | Sources/TestRe/TestRe.swift:49-52 | the offset is the top of the first moving-view report minus the top of the first fixed-view report; a missing fixed report counts as 0 and a missing moving report as 0 |
| Preferences.FirstOfReduce | Sources/TestRe/TestRe.swift:168-173 | after a fold, a kind's first record comes from the earlier reports if they contain one, otherwise from the later ones |
| Preferences.ScrollOffsetOrderFree | Sources/TestRe/TestRe.swift:134-154 | when the moving and fixed views each report once, the offset is the same whichever report the framework folds first |
| Rotation.SymbolRotation | Sources/TestRe/TestRe.swift:90-103 | the angle always lies in [0, 180]; it is 0 below 60% of the threshold and exactly 180 at or beyond the threshold; strictly between those points it is strictly between 0 and 180 |
| Rotation.RotationOnRamp | Sources/TestRe/TestRe.swift:97-101 | between 60% of the threshold and the threshold, the angle times the ramp length equals 180 times the distance past the ramp start |
| Rotation.RotationInverse | Sources/TestRe/TestRe.swift:97-101 | every angle from 0 to 180 is shown at the ramp offset that starts at 60% of the threshold and adds the angle's share of the ramp length |
| Rotation.RotationMonotone | Sources/TestRe/TestRe.swift:94-101 | pulling further never decreases the angle |
| Rotation.RotationStrictOnRamp | Sources/TestRe/TestRe.swift:97-101 | on the ramp, pulling further strictly increases the angle |
| Refresh.Step | Sources/TestRe/TestRe.swift:52-86 | each step records the offset as current and previous and sets the angle. It arms exactly when unarmed, the offset is strictly beyond the threshold and the previous one was not. It fires exactly when armed after that check and the offset falls from beyond the threshold to at or below it. Firing disarms, no step both arms and fires, and the freeze flag is never raised and is cleared unless armed |
| Refresh.RefreshLogic | Sources/TestRe/TestRe.swift:46-88 | the handler's next previous offset is the first moving report's top minus the first fixed report's top; when only the moving view reported it is that view's top, when only the fixed view reported it is minus that view's top, and it is 0 when neither reported; the rest of the transition is one step at that offset |
| Refresh.InitSynced | Sources/TestRe/TestRe.swift:11-15 | the mounted state has previous offset 0, offset 0.5, angle 0, is unarmed and unfrozen, and satisfies both invariants |
| Refresh.StepKeepsArmedBeyond | Sources/TestRe/TestRe.swift:57-86 | if an armed controller's last offset was beyond the threshold, the same holds after any step |
| Refresh.StepKeepsSynced | Sources/TestRe/TestRe.swift:57-86 | "armed exactly when the last offset was beyond the threshold, and not frozen" is kept by any step |
| Refresh.SyncedStepEdges | Sources/TestRe/TestRe.swift:57-79 | in a synced controller arming is exactly a rising crossing and firing is exactly a falling crossing |
| Runs.Run | Sources/TestRe/TestRe.swift:40-42 | a run yields one event per offset, ends with the last offset as its previous offset, and never raises the freeze flag |
| Runs.RunAppend | Sources/TestRe/TestRe.swift:40-42 | running over two offset sequences in a row equals running over their concatenation |
| Runs.RunKeepsArmedBeyond | Sources/TestRe/TestRe.swift:57-86 | every state of a run started with an armed-implies-beyond state has that property |
| Runs.RunKeepsSynced | Sources/TestRe/TestRe.swift:13 | a run from a synced state stays synced; in particular the freeze flag, only ever assigned false, stays false |
| Runs.RunCountsCrossings | Sources/TestRe/TestRe.swift:57-79 | from a synced state, the callback fires once per falling crossing and arms once per rising crossing of the threshold, as counted independently of the controller |
| Runs.RunAlternates | Sources/TestRe/TestRe.swift:57-79 | from any state, the non-quiet events of a run alternate between arming and firing, starting with a fire only if the run starts armed |
| Runs.ArmBetweenFires | Sources/TestRe/TestRe.swift:57-79 | in an alternating event trace, between two fires there is an arm |
| Runs.FirstFireNeedsArm | Sources/TestRe/TestRe.swift:57-61 | in an alternating event trace that starts unarmed, every fire is preceded by an arm |
| Runs.RunArmsBetweenFires | Sources/TestRe/TestRe.swift:57-79 | between any two firings of a run there is a step that armed a refresh |
| Runs.FiresBoundedByArms | Sources/TestRe/TestRe.swift:57-79 | fires never outnumber arms by more than the one refresh armed at the start, and arms never outnumber fires by more than one |
| Runs.RepeatedPullsFireEachTime | Sources/TestRe/TestRe.swift:57-86 | from a synced state, pulling past the threshold and releasing, repeated n times, fires exactly n times and ends unarmed: there is no permanent latch |
| Runs.PullPastAndReleaseFiresOnce | Sources/TestRe/TestRe.swift:57-79 | with threshold 110, the offsets 0, 50, 111, 109, 60 produce quiet, quiet, arm, fire, quiet: one firing, at 111 to 109 |
| Runs.ReachingThresholdNeverFires | Sources/TestRe/TestRe.swift:57-61 | with threshold 110, the offsets 0, 50, 110, 100 reach the threshold without passing it, so nothing arms or fires |
| Runs.Simulate | Sources/TestRe/TestRe.swift:40-88 | the measurement loop from mount ends in the same state and counts the same firings as the recursive run, which equal the falling crossings; it ends synced, with the last offset as its previous offset |

## Left out

- View bodies, `SymbolView` drawing, gradients, animations and the `alignmentGuide`/offset layout that reads `refreshing` and `frozen`: these are rendering only.
- `MovingView` and `FixedView` geometry (`GeometryReader` global frames, `UIScreen` bounds): the frames they report are inputs to the model.
- The `DispatchQueue.main.async` hop in `refreshLogic`: each call is modelled as one synchronous, atomic step.
- `ActivityRep`, a UIKit activity-indicator wrapper, has no logic.
- The body of the `onRefresh` callback and the commented-out store calls: the callback is represented only by the `fired` flag of a step.
- Floating-point behaviour of `CGFloat` and `Double` and the degrees-to-radians conversion of `Angle`: angles are exact `real` degrees.
- Rejecting a non-positive threshold: the code has no such check, so `threshold > 0` is a precondition of every operation rather than an error path.
- `threshold` is a stored `var` in the source; the model treats it as fixed for the whole of a run.
