/**
 The measurement channel of the pull-to-refresh control.

 Two invisible views report their frames through one preference key: the
 "moving" view scrolls with the content, the "fixed" view is the viewport.
 The framework folds every report into one list (`Reduce`), and the
 controller picks the first report of each kind, falling back to the zero
 rectangle when a kind has not reported, to derive the scroll offset.
 */
module Preferences {

  datatype Option<T> = None | Some(value: T)

  /** Which of the two tracked views produced a measurement. */
  datatype ViewType = MovingView | FixedView

  /** A layout rectangle: origin and size, as the framework reports it. */
  datatype Rect = Rect(x: real, y: real, width: real, height: real)

  /** The rectangle used when a view has not reported. */
  const Zero: Rect := Rect(0.0, 0.0, 0.0, 0.0)

  /** The smallest y-coordinate of the rectangle; a negative height extends
      the rectangle upward from its origin. */
  function MinY(r: Rect): (m: real)
    ensures m <= r.y && m <= r.y + r.height
    ensures m == r.y || m == r.y + r.height
  {
    if r.height < 0.0 then r.y + r.height else r.y
  }

  /** One measurement record. */
  datatype PrefData = PrefData(vType: ViewType, bounds: Rect)

  /** The preference key's fold step: the reports gathered so far followed by
      the next sibling's reports, neither reordered nor dropped. */
  function Reduce(value: seq<PrefData>, next: seq<PrefData>): (r: seq<PrefData>)
    ensures |r| == |value| + |next|
    ensures forall i :: 0 <= i < |value| ==> r[i] == value[i]
    ensures forall i :: 0 <= i < |next| ==> r[|value| + i] == next[i]
  {
    value + next
  }

  /** `i` is the position of the first record of kind `k`. */
  ghost predicate IsFirst(values: seq<PrefData>, k: ViewType, i: int)
  {
    0 <= i < |values| && values[i].vType == k &&
    forall j :: 0 <= j < i ==> values[j].vType != k
  }

  /** The bounds of the first record of kind `k`, if any. */
  function FirstOf(values: seq<PrefData>, k: ViewType): (r: Option<Rect>)
    ensures r.None? <==> forall i :: 0 <= i < |values| ==> values[i].vType != k
    ensures r.Some? ==> exists i :: IsFirst(values, k, i) && values[i].bounds == r.value
  {
    if |values| == 0 then None
    else if values[0].vType == k then
      assert IsFirst(values, k, 0);
      Some(values[0].bounds)
    else
      var rest := FirstOf(values[1..], k);
      if rest.Some? then
        assert exists j :: IsFirst(values, k, j) && values[j].bounds == rest.value by {
          var i :| IsFirst(values[1..], k, i) && values[1..][i].bounds == rest.value;
          assert IsFirst(values, k, i + 1);
        }
        rest
      else
        None
  }

  /** The bounds of the first record of kind `k`, or the zero rectangle. */
  function BoundsOf(values: seq<PrefData>, k: ViewType): (b: Rect)
    ensures (forall i :: 0 <= i < |values| ==> values[i].vType != k) ==> b == Zero
    ensures forall i :: IsFirst(values, k, i) ==> b == values[i].bounds
  {
    var r := FirstOf(values, k);
    assert forall i, j :: IsFirst(values, k, i) && IsFirst(values, k, j) ==> i == j;
    if r.Some? then r.value else Zero
  }

  /** How far the content has been pulled down: the top of the moving view
      measured from the top of the fixed view. */
  function ScrollOffset(values: seq<PrefData>): (offset: real)
    ensures forall i, j :: IsFirst(values, MovingView, i) && IsFirst(values, FixedView, j) ==>
              offset == MinY(values[i].bounds) - MinY(values[j].bounds)
    ensures (forall i :: 0 <= i < |values| ==> values[i].vType != FixedView) ==>
              offset == MinY(BoundsOf(values, MovingView))
    ensures (forall i :: 0 <= i < |values| ==> values[i].vType != MovingView) ==>
              offset == -MinY(BoundsOf(values, FixedView))
  {
    MinY(BoundsOf(values, MovingView)) - MinY(BoundsOf(values, FixedView))
  }

  /** Folding reports keeps earlier reports in front: a kind's first record in
      the combined list is its first record in `value`, unless `value` has
      none, in which case it is the first one in `next`. */
  lemma {:induction false} FirstOfReduce(value: seq<PrefData>, next: seq<PrefData>, k: ViewType)
    ensures FirstOf(Reduce(value, next), k) ==
            (if FirstOf(value, k).Some? then FirstOf(value, k) else FirstOf(next, k))
  {
    if |value| == 0 {
      assert Reduce(value, next) == next;
    } else {
      assert Reduce(value, next)[1..] == Reduce(value[1..], next);
      if value[0].vType != k {
        FirstOfReduce(value[1..], next, k);
      }
    }
  }

  /** When each view reports exactly once, the order in which the framework
      folds the two reports does not change the offset. */
  lemma ScrollOffsetOrderFree(moving: Rect, fixed: Rect)
    ensures ScrollOffset(Reduce([PrefData(MovingView, moving)], [PrefData(FixedView, fixed)]))
         == MinY(moving) - MinY(fixed)
    ensures ScrollOffset(Reduce([PrefData(FixedView, fixed)], [PrefData(MovingView, moving)]))
         == MinY(moving) - MinY(fixed)
  {
    var a := Reduce([PrefData(MovingView, moving)], [PrefData(FixedView, fixed)]);
    var b := Reduce([PrefData(FixedView, fixed)], [PrefData(MovingView, moving)]);
    assert IsFirst(a, MovingView, 0) && IsFirst(a, FixedView, 1);
    assert IsFirst(b, FixedView, 0) && IsFirst(b, MovingView, 1);
  }
}
